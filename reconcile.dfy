/** fill_missing_dates: build the grid of every day from the start date to today
    crossed with every symbol (date-major, then in symbol-list order), left-join
    the fetched rows onto it by (date, symbol), and forward-fill close within
    each symbol. Dates are day numbers; `today` is a parameter. */
module Reconcile {
  import opened Frames

  /** One grid cell, before the join. */
  datatype Key = Key(date: int, symbol: Symbol)

  /** Every day from start to today inclusive (pd.date_range with a daily step);
      empty when start is after today. */
  function Days(start: int, today: int): (days: seq<int>)
    ensures |days| == if start <= today then today - start + 1 else 0
    decreases today - start
  {
    if start > today then [] else Days(start, today - 1) + [today]
  }

  /** Day i of the range is start + i. */
  lemma {:induction false} DaysAt(start: int, today: int)
    ensures forall i :: 0 <= i < |Days(start, today)| ==> Days(start, today)[i] == start + i
    decreases today - start
  {
    if start <= today {
      DaysAt(start, today - 1);
    }
  }

  /** The cells of one day, one per symbol, in list order. */
  function Block(date: int, symbols: seq<Symbol>): seq<Key>
  {
    seq(|symbols|, j requires 0 <= j < |symbols| => Key(date, symbols[j]))
  }

  /** The product days x symbols, date-major (MultiIndex.from_product). */
  function Grid(days: seq<int>, symbols: seq<Symbol>): (g: seq<Key>)
    ensures |g| == |days| * |symbols|
  {
    if days == [] then [] else Grid(days[..|days| - 1], symbols) + Block(days[|days| - 1], symbols)
  }

  /** The close of the first fetched row with this (date, symbol), or None when
      there is no such row: what a left merge puts in a grid cell. */
  function Lookup<V>(df: seq<Row<V>>, date: int, symbol: Symbol): (r: Option<V>)
    ensures r.Some? ==> exists i :: 0 <= i < |df| && df[i].date == date && df[i].symbol == symbol && df[i].close == r
  {
    if df == [] then None
    else if df[0].date == date && df[0].symbol == symbol then df[0].close
    else Lookup(df[1..], date, symbol)
  }

  /** merge(df, on=["date", "symbol"], how="left"): each grid cell in order,
      with the close of the matching fetched row, or None. */
  function LeftJoin<V>(grid: seq<Key>, df: seq<Row<V>>): (joined: seq<Row<V>>)
    ensures |joined| == |grid|
  {
    seq(|grid|, i requires 0 <= i < |grid| => Row(grid[i].date, grid[i].symbol, Lookup(df, grid[i].date, grid[i].symbol)))
  }

  /** The close a row gets from the forward-fill, given the latest close seen so
      far for each symbol. */
  function Carried<V>(last: map<Symbol, V>, r: Row<V>): Option<V>
  {
    if r.close.Some? then r.close
    else if r.symbol in last then Some(last[r.symbol])
    else None
  }

  /** The latest closes after filling row r. */
  function Remember<V>(last: map<Symbol, V>, r: Row<V>): map<Symbol, V>
  {
    match Carried(last, r)
    case Some(v) => last[r.symbol := v]
    case None => last
  }

  /** groupby("symbol")["close"].ffill(): one pass over the rows in order,
      carrying the latest close of each symbol. Keys never change and an
      observed close is never replaced. */
  function ForwardFill<V>(rows: seq<Row<V>>, last: map<Symbol, V>): (filled: seq<Row<V>>)
    ensures |filled| == |rows|
  {
    if rows == [] then []
    else [rows[0].(close := Carried(last, rows[0]))] + ForwardFill(rows[1..], Remember(last, rows[0]))
  }

  /** fill_missing_dates. The fetched rows are assumed to hold at most one row
      per (date, symbol). */
  function FillMissingDates<V>(df: seq<Row<V>>, symbols: seq<Symbol>, start: int, today: int): (out: seq<Row<V>>)
    requires UniqueKeys(df)
    ensures |out| == |Days(start, today)| * |symbols|
  {
    ForwardFill(LeftJoin(Grid(Days(start, today), symbols), df), map[])
  }

  // ---------------------------------------------------------------------------
  // Reference definitions

  /** The close of the latest row of `rows` for this symbol that has one. */
  function LastClose<V>(rows: seq<Row<V>>, symbol: Symbol): Option<V>
  {
    if rows == [] then None
    else if rows[|rows| - 1].symbol == symbol && rows[|rows| - 1].close.Some? then rows[|rows| - 1].close
    else LastClose(rows[..|rows| - 1], symbol)
  }

  /** LastClose, falling back to a close carried in from before `rows`. */
  function LastCloseOr<V>(rows: seq<Row<V>>, symbol: Symbol, last: map<Symbol, V>): Option<V>
  {
    if LastClose(rows, symbol).Some? then LastClose(rows, symbol)
    else if symbol in last then Some(last[symbol])
    else None
  }

  /** The close of the latest day in [start, date] on which a fetched row for
      this symbol has a close; None when there is none. */
  function LatestObserved<V>(df: seq<Row<V>>, symbol: Symbol, start: int, date: int): Option<V>
    decreases date - start
  {
    if date < start then None
    else if Lookup(df, date, symbol).Some? then Lookup(df, date, symbol)
    else LatestObserved(df, symbol, start, date - 1)
  }

  // ---------------------------------------------------------------------------
  // Lookup and LastClose

  /** A key no fetched row has gets None; that a match comes from a row with
      that very key is Lookup's own ensures. */
  lemma {:induction false} LookupSound<V>(df: seq<Row<V>>, date: int, symbol: Symbol)
    ensures (forall i :: 0 <= i < |df| ==> df[i].date != date || df[i].symbol != symbol) ==> Lookup(df, date, symbol) == None
  {
    if df != [] && !(df[0].date == date && df[0].symbol == symbol) {
      LookupSound(df[1..], date, symbol);
      if forall i :: 0 <= i < |df| ==> df[i].date != date || df[i].symbol != symbol {
        assert forall i :: 0 <= i < |df[1..]| ==> df[1..][i] == df[i + 1];
      }
    }
  }

  /** Under unique keys the join finds exactly the row with that key. */
  lemma {:induction false} LookupFinds<V>(df: seq<Row<V>>, i: nat)
    requires UniqueKeys(df) && i < |df|
    ensures Lookup(df, df[i].date, df[i].symbol) == df[i].close
  {
    if i > 0 {
      assert df[0].date != df[i].date || df[0].symbol != df[i].symbol;
      assert UniqueKeys(df[1..]) by {
        forall a, b | 0 <= a < b < |df[1..]| && df[1..][a].date == df[1..][b].date
          ensures df[1..][a].symbol != df[1..][b].symbol
        {
          assert df[1..][a] == df[a + 1] && df[1..][b] == df[b + 1];
        }
      }
      LookupFinds(df[1..], i - 1);
      assert df[1..][i - 1] == df[i];
    }
  }

  /** With no row of the symbol, there is no close to carry. */
  lemma {:induction false} LastCloseAbsent<V>(rows: seq<Row<V>>, symbol: Symbol)
    requires forall i :: 0 <= i < |rows| ==> rows[i].symbol != symbol
    ensures LastClose(rows, symbol) == None
  {
    if rows != [] {
      LastCloseAbsent(rows[..|rows| - 1], symbol);
    }
  }

  /** The latest close over p + q is q's if q has one, and otherwise p's. */
  lemma {:induction false} LastCloseConcat<V>(p: seq<Row<V>>, q: seq<Row<V>>, symbol: Symbol)
    ensures LastClose(p + q, symbol) == if LastClose(q, symbol).Some? then LastClose(q, symbol) else LastClose(p, symbol)
  {
    if q == [] {
      assert p + q == p;
    } else {
      assert (p + q)[..|p + q| - 1] == p + q[..|q| - 1];
      LastCloseConcat(p, q[..|q| - 1], symbol);
    }
  }

  /** A carried close always comes from an earlier row of the same symbol. */
  lemma {:induction false} LastCloseSource<V>(rows: seq<Row<V>>, symbol: Symbol)
    requires LastClose(rows, symbol).Some?
    ensures exists i :: 0 <= i < |rows| && rows[i].symbol == symbol && rows[i].close == LastClose(rows, symbol)
  {
    var n := |rows| - 1;
    if !(rows[n].symbol == symbol && rows[n].close.Some?) {
      LastCloseSource(rows[..n], symbol);
      var i :| 0 <= i < n && rows[..n][i].symbol == symbol && rows[..n][i].close == LastClose(rows[..n], symbol);
      assert rows[i] == rows[..n][i];
    }
  }

  /** Carrying one row into the map, then scanning the rest, is scanning from
      that row. */
  lemma {:induction false} LastCloseAfterRemember<V>(r: Row<V>, rows: seq<Row<V>>, symbol: Symbol, last: map<Symbol, V>)
    ensures LastCloseOr(rows, symbol, Remember(last, r)) == LastCloseOr([r] + rows, symbol, last)
  {
    LastCloseConcat([r], rows, symbol);
    assert LastClose([r], symbol) == if r.symbol == symbol && r.close.Some? then r.close else None by {
      assert [r][..0] == [];
    }
  }

  // ---------------------------------------------------------------------------
  // Forward-fill

  /** A missing close takes the latest earlier close of the same symbol,
      falling back to the carried-in map. */
  lemma {:induction false} ForwardFillFrom<V>(rows: seq<Row<V>>, last: map<Symbol, V>, i: nat)
    requires i < |rows|
    ensures ForwardFill(rows, last)[i].close ==
            if rows[i].close.Some? then rows[i].close else LastCloseOr(rows[..i], rows[i].symbol, last)
  {
    var r := rows[i];
    if i == 0 {
      assert rows[..0] == [];
    } else {
      var tail := rows[1..];
      var later := Remember(last, rows[0]);
      assert ForwardFill(rows, last)[i] == ForwardFill(tail, later)[i - 1];
      assert tail[i - 1] == r;
      ForwardFillFrom(tail, later, i - 1);
      assert LastCloseOr(tail[..i - 1], r.symbol, later) == LastCloseOr(rows[..i], r.symbol, last) by {
        LastCloseAfterRemember(rows[0], tail[..i - 1], r.symbol, last);
        assert [rows[0]] + tail[..i - 1] == rows[..i];
      }
    }
  }

  /** The forward-fill changes only close: every row keeps its date and
      symbol, and a row that has a close keeps it. */
  lemma {:induction false} ForwardFillKeeps<V>(rows: seq<Row<V>>, last: map<Symbol, V>)
    ensures forall i :: 0 <= i < |rows| ==>
              ForwardFill(rows, last)[i].date == rows[i].date && ForwardFill(rows, last)[i].symbol == rows[i].symbol
    ensures forall i :: 0 <= i < |rows| && rows[i].close.Some? ==> ForwardFill(rows, last)[i].close == rows[i].close
  {
    if rows != [] {
      ForwardFillKeeps(rows[1..], Remember(last, rows[0]));
      forall i | 0 < i < |rows| ensures ForwardFill(rows, last)[i] == ForwardFill(rows[1..], Remember(last, rows[0]))[i - 1] {
      }
    }
  }

  /** The group forward-fill: a row keeps its own close when it has one, and
      otherwise takes the close of the latest earlier row of the same symbol
      that has one (None if there is none). */
  lemma {:induction false} GroupForwardFillAt<V>(rows: seq<Row<V>>, i: nat)
    requires i < |rows|
    ensures ForwardFill(rows, map[])[i] ==
            rows[i].(close := if rows[i].close.Some? then rows[i].close else LastClose(rows[..i], rows[i].symbol))
  {
    ForwardFillFrom(rows, map[], i);
    ForwardFillKeeps(rows, map[]);
  }

  /** Forward-fill never mixes symbols: every close in the output is the close
      of some input row of the same symbol, at or before that position. */
  lemma {:induction false} ForwardFillSameSymbol<V>(rows: seq<Row<V>>, i: nat)
    requires i < |rows| && ForwardFill(rows, map[])[i].close.Some?
    ensures exists j :: 0 <= j <= i && rows[j].symbol == rows[i].symbol && rows[j].close == ForwardFill(rows, map[])[i].close
  {
    GroupForwardFillAt(rows, i);
    if rows[i].close.None? {
      LastCloseSource(rows[..i], rows[i].symbol);
      var j :| 0 <= j < i && rows[..i][j].symbol == rows[i].symbol && rows[..i][j].close == LastClose(rows[..i], rows[i].symbol);
      assert rows[j] == rows[..i][j];
    }
  }

  // ---------------------------------------------------------------------------
  // The grid

  /** The grid of the first d days is a prefix of the grid. */
  lemma {:induction false} GridPrefix(days: seq<int>, symbols: seq<Symbol>, d: nat)
    requires d <= |days|
    ensures |Grid(days[..d], symbols)| <= |Grid(days, symbols)|
    ensures Grid(days, symbols)[..|Grid(days[..d], symbols)|] == Grid(days[..d], symbols)
    decreases |days|
  {
    if d < |days| {
      var init := days[..|days| - 1];
      GridPrefix(init, symbols, d);
      assert init[..d] == days[..d];
    } else {
      assert days[..d] == days;
    }
  }

  /** Cell j of day d sits right after the cells of the first d days, and it is
      day d of the range with symbol j of the list. */
  lemma {:induction false} GridAt(days: seq<int>, symbols: seq<Symbol>, d: nat, j: nat)
    requires d < |days| && j < |symbols|
    ensures |Grid(days[..d], symbols)| + j < |Grid(days, symbols)|
    ensures Grid(days, symbols)[..|Grid(days[..d], symbols)| + j] == Grid(days[..d], symbols) + Block(days[d], symbols)[..j]
    ensures Grid(days, symbols)[|Grid(days[..d], symbols)| + j] == Key(days[d], symbols[j])
  {
    var before := Grid(days[..d], symbols);
    var p := |before|;
    GridPrefix(days, symbols, d + 1);
    assert days[..d + 1][..d] == days[..d];
    assert Grid(days[..d + 1], symbols) == before + Block(days[d], symbols);
    var g := Grid(days, symbols);
    assert g[..p + j] == g[..p + |symbols|][..p + j];
  }

  // ---------------------------------------------------------------------------
  // The filled grid

  /** Merging a prefix of the grid gives that prefix of the merged grid. */
  lemma {:induction false} LeftJoinPrefix<V>(grid: seq<Key>, df: seq<Row<V>>, k: nat)
    requires k <= |grid|
    ensures LeftJoin(grid, df)[..k] == LeftJoin(grid[..k], df)
  {
  }

  /** The merge works cell by cell, so it distributes over concatenation. */
  lemma {:induction false} LeftJoinConcat<V>(a: seq<Key>, b: seq<Key>, df: seq<Row<V>>)
    ensures LeftJoin(a + b, df) == LeftJoin(a, df) + LeftJoin(b, df)
  {
  }

  /** In one day's cells the symbol occurs once, so its latest close is that
      day's joined close. */
  lemma {:induction false} BlockLastClose<V>(date: int, symbols: seq<Symbol>, df: seq<Row<V>>, j: nat)
    requires Distinct(symbols) && j < |symbols|
    ensures LastClose(LeftJoin(Block(date, symbols)[..j], df), symbols[j]) == None
    ensures LastClose(LeftJoin(Block(date, symbols), df), symbols[j]) == Lookup(df, date, symbols[j])
  {
    var b := Block(date, symbols);
    var s := symbols[j];
    LastCloseAbsent(LeftJoin(b[..j], df), s);
    LastCloseAbsent(LeftJoin(b[j + 1..], df), s);
    assert b == b[..j] + [b[j]] + b[j + 1..];
    LeftJoinConcat(b[..j] + [b[j]], b[j + 1..], df);
    LeftJoinConcat(b[..j], [b[j]], df);
    LastCloseConcat(LeftJoin(b[..j], df) + LeftJoin([b[j]], df), LeftJoin(b[j + 1..], df), s);
    LastCloseConcat(LeftJoin(b[..j], df), LeftJoin([b[j]], df), s);
    assert LeftJoin([b[j]], df)[..0] == [];
  }

  /** The first d days of the range are the range ending d - 1 days later. */
  lemma {:induction false} DaysPrefix(start: int, today: int, d: nat)
    requires d <= |Days(start, today)|
    ensures Days(start, today)[..d] == Days(start, start + d - 1)
  {
    DaysAt(start, today);
    DaysAt(start, start + d - 1);
  }

  /** Over the grid of the days [start, last], the latest joined close of a
      symbol is the latest observed close up to `last`. */
  lemma {:induction false} GridLastClose<V>(df: seq<Row<V>>, symbols: seq<Symbol>, start: int, last: int, j: nat)
    requires Distinct(symbols) && j < |symbols|
    ensures LastClose(LeftJoin(Grid(Days(start, last), symbols), df), symbols[j]) == LatestObserved(df, symbols[j], start, last)
    decreases last - start
  {
    var s := symbols[j];
    if last < start {
      assert LeftJoin(Grid(Days(start, last), symbols), df) == [];
    } else {
      var days := Days(start, last);
      var before := Grid(Days(start, last - 1), symbols);
      assert days[..|days| - 1] == Days(start, last - 1);
      assert Grid(days, symbols) == before + Block(last, symbols);
      LeftJoinConcat(before, Block(last, symbols), df);
      LastCloseConcat(LeftJoin(before, df), LeftJoin(Block(last, symbols), df), s);
      BlockLastClose(last, symbols, df, j);
      GridLastClose(df, symbols, start, last - 1, j);
    }
  }

  /** Before cell j of day d of the joined grid, the symbol's latest close is the
      one over whole days 0 .. d - 1: the cells of day d before it are other
      symbols. */
  lemma {:induction false} JoinedPrefixLastClose<V>(df: seq<Row<V>>, symbols: seq<Symbol>, days: seq<int>, d: nat, j: nat)
    requires Distinct(symbols) && d < |days| && j < |symbols|
    ensures |Grid(days[..d], symbols)| + j < |Grid(days, symbols)|
    ensures LastClose(LeftJoin(Grid(days, symbols), df)[..|Grid(days[..d], symbols)| + j], symbols[j]) ==
            LastClose(LeftJoin(Grid(days[..d], symbols), df), symbols[j])
  {
    var g := Grid(days, symbols);
    var before := Grid(days[..d], symbols);
    var k := |before| + j;
    var partial := Block(days[d], symbols)[..j];
    GridAt(days, symbols, d, j);
    LeftJoinPrefix(g, df, k);
    assert LeftJoin(g, df)[..k] == LeftJoin(before + partial, df);
    LeftJoinConcat(before, partial, df);
    LastCloseConcat(LeftJoin(before, df), LeftJoin(partial, df), symbols[j]);
    BlockLastClose(days[d], symbols, df, j);
  }

  /** The heart of fill_missing_dates: cell (d, j) of the output is day
      start + d for symbol j, and its close is the latest observed close of that
      symbol from the start date up to that day. So a matched row keeps its
      close, an unmatched day takes the latest earlier observed close of the same
      symbol, and a day with no earlier close stays in the output with None. */
  lemma {:induction false} FillMissingDatesAt<V>(df: seq<Row<V>>, symbols: seq<Symbol>, start: int, today: int, d: nat, j: nat)
    requires UniqueKeys(df) && Distinct(symbols)
    requires start + d <= today && j < |symbols|
    ensures d * |symbols| + j < |FillMissingDates(df, symbols, start, today)|
    ensures FillMissingDates(df, symbols, start, today)[d * |symbols| + j] ==
            Row(start + d, symbols[j], LatestObserved(df, symbols[j], start, start + d))
  {
    var days := Days(start, today);
    var k := |Grid(days[..d], symbols)| + j;
    assert k == d * |symbols| + j;
    assert FillMissingDates(df, symbols, start, today) == ForwardFill(LeftJoin(Grid(days, symbols), df), map[]);
    FilledGridCell(df, symbols, start, today, d, j);
  }

  /** FillMissingDatesAt, with the cell's position written as the length of the
      grid of the days before it plus j. */
  lemma {:induction false} FilledGridCell<V>(df: seq<Row<V>>, symbols: seq<Symbol>, start: int, today: int, d: nat, j: nat)
    requires Distinct(symbols)
    requires start + d <= today && j < |symbols|
    ensures |Grid(Days(start, today)[..d], symbols)| + j < |LeftJoin(Grid(Days(start, today), symbols), df)|
    ensures ForwardFill(LeftJoin(Grid(Days(start, today), symbols), df), map[])[|Grid(Days(start, today)[..d], symbols)| + j] ==
            Row(start + d, symbols[j], LatestObserved(df, symbols[j], start, start + d))
  {
    var days := Days(start, today);
    var joined := LeftJoin(Grid(days, symbols), df);
    var s := symbols[j];
    var k := |Grid(days[..d], symbols)| + j;
    var observed := Lookup(df, start + d, s);
    var prior := LatestObserved(df, s, start, start + d - 1);
    JoinedGridCell(df, symbols, start, today, d, j);
    assert ForwardFill(joined, map[])[k] == Row(start + d, s, if observed.Some? then observed else prior) by {
      FilledCell(joined, k, Row(start + d, s, observed), prior);
    }
    LatestObservedStep(df, s, start, start + d);
  }

  /** Merged cell (d, j) of the grid over [start, today]: its key and matched
      close, and the latest close of its symbol in the cells before it. */
  lemma {:induction false} JoinedGridCell<V>(df: seq<Row<V>>, symbols: seq<Symbol>, start: int, today: int, d: nat, j: nat)
    requires Distinct(symbols)
    requires start + d <= today && j < |symbols|
    ensures |Grid(Days(start, today)[..d], symbols)| + j < |LeftJoin(Grid(Days(start, today), symbols), df)|
    ensures LeftJoin(Grid(Days(start, today), symbols), df)[|Grid(Days(start, today)[..d], symbols)| + j] ==
            Row(start + d, symbols[j], Lookup(df, start + d, symbols[j]))
    ensures LastClose(LeftJoin(Grid(Days(start, today), symbols), df)[..|Grid(Days(start, today)[..d], symbols)| + j], symbols[j]) ==
            LatestObserved(df, symbols[j], start, start + d - 1)
  {
    var days := Days(start, today);
    assert days[d] == start + d by {
      DaysAt(start, today);
    }
    JoinedCellKey(df, symbols, days, d, j);
    JoinedCell(df, symbols, start, today, d, j);
  }

  /** One day of the reference: the day's own close, else the day before's. */
  lemma {:induction false} LatestObservedStep<V>(df: seq<Row<V>>, symbol: Symbol, start: int, date: int)
    requires start <= date
    ensures LatestObserved(df, symbol, start, date) ==
            if Lookup(df, date, symbol).Some? then Lookup(df, date, symbol) else LatestObserved(df, symbol, start, date - 1)
  {
  }

  /** A filled row keeps its own close, or takes the latest earlier close of
      its symbol. */
  lemma {:induction false} FilledCell<V>(rows: seq<Row<V>>, k: nat, cell: Row<V>, prior: Option<V>)
    requires k < |rows| && rows[k] == cell && LastClose(rows[..k], cell.symbol) == prior
    ensures ForwardFill(rows, map[])[k] == cell.(close := if cell.close.Some? then cell.close else prior)
  {
    GroupForwardFillAt(rows, k);
  }

  /** Before merged cell (d, j), the symbol's latest close is the latest
      observed close up to the day before day d. */
  lemma {:induction false} JoinedCell<V>(df: seq<Row<V>>, symbols: seq<Symbol>, start: int, today: int, d: nat, j: nat)
    requires Distinct(symbols) && start + d <= today && j < |symbols|
    ensures |Grid(Days(start, today)[..d], symbols)| + j < |Grid(Days(start, today), symbols)|
    ensures LastClose(LeftJoin(Grid(Days(start, today), symbols), df)[..|Grid(Days(start, today)[..d], symbols)| + j], symbols[j]) ==
            LatestObserved(df, symbols[j], start, start + d - 1)
  {
    var days := Days(start, today);
    var s := symbols[j];
    var whole := LastClose(LeftJoin(Grid(days[..d], symbols), df), s);
    assert |Grid(days[..d], symbols)| + j < |Grid(days, symbols)| &&
           LastClose(LeftJoin(Grid(days, symbols), df)[..|Grid(days[..d], symbols)| + j], s) == whole by {
      JoinedPrefixLastClose(df, symbols, days, d, j);
    }
    PrefixLastClose(df, symbols, start, today, d, j);
  }

  /** GridLastClose over the first d days of the range. */
  lemma {:induction false} PrefixLastClose<V>(df: seq<Row<V>>, symbols: seq<Symbol>, start: int, today: int, d: nat, j: nat)
    requires Distinct(symbols) && start + d <= today && j < |symbols|
    ensures LastClose(LeftJoin(Grid(Days(start, today)[..d], symbols), df), symbols[j]) ==
            LatestObserved(df, symbols[j], start, start + d - 1)
  {
    DaysPrefix(start, today, d);
    GridLastClose(df, symbols, start, start + d - 1, j);
  }

  /** Merged cell (d, j) is day d and symbol j, with the close the merge finds. */
  lemma {:induction false} JoinedCellKey<V>(df: seq<Row<V>>, symbols: seq<Symbol>, days: seq<int>, d: nat, j: nat)
    requires d < |days| && j < |symbols|
    ensures |Grid(days[..d], symbols)| + j < |Grid(days, symbols)|
    ensures LeftJoin(Grid(days, symbols), df)[|Grid(days[..d], symbols)| + j] ==
            Row(days[d], symbols[j], Lookup(df, days[d], symbols[j]))
  {
    GridAt(days, symbols, d, j);
  }

  // ---------------------------------------------------------------------------
  // Shape of the output

  /** Every cell's date is one of the days and its symbol one of the list. */
  lemma {:induction false} GridMembers(days: seq<int>, symbols: seq<Symbol>)
    ensures forall i :: 0 <= i < |Grid(days, symbols)| ==>
              Grid(days, symbols)[i].date in days && Grid(days, symbols)[i].symbol in symbols
  {
    if days != [] {
      var init := days[..|days| - 1];
      GridMembers(init, symbols);
      forall i | 0 <= i < |Grid(days, symbols)|
        ensures Grid(days, symbols)[i].date in days && Grid(days, symbols)[i].symbol in symbols
      {
        var g := Grid(init, symbols);
        if i < |g| {
          assert Grid(days, symbols)[i] == g[i];
          assert g[i].date in init;
        } else {
          assert Grid(days, symbols)[i] == Block(days[|days| - 1], symbols)[i - |g|];
        }
      }
    }
  }

  /** The output is the grid itself, cell for cell: one row per day of
      [start, today] and symbol, date-major; nothing when start is after today;
      no row outside the range or for a symbol not in the list. */
  lemma {:induction false} FillMissingDatesShape<V>(df: seq<Row<V>>, symbols: seq<Symbol>, start: int, today: int)
    requires UniqueKeys(df)
    ensures |FillMissingDates(df, symbols, start, today)| == |Days(start, today)| * |symbols|
    ensures start > today ==> FillMissingDates(df, symbols, start, today) == []
    ensures forall i :: 0 <= i < |FillMissingDates(df, symbols, start, today)| ==>
              Key(FillMissingDates(df, symbols, start, today)[i].date, FillMissingDates(df, symbols, start, today)[i].symbol) ==
              Grid(Days(start, today), symbols)[i]
    ensures forall i :: 0 <= i < |FillMissingDates(df, symbols, start, today)| ==>
              start <= FillMissingDates(df, symbols, start, today)[i].date <= today &&
              FillMissingDates(df, symbols, start, today)[i].symbol in symbols
  {
    var days := Days(start, today);
    var g := Grid(days, symbols);
    var joined := LeftJoin(g, df);
    var out := FillMissingDates(df, symbols, start, today);
    assert out == ForwardFill(joined, map[]);
    ForwardFillKeeps(joined, map[]);
    GridMembers(days, symbols);
    DaysAt(start, today);
    forall i | 0 <= i < |out|
      ensures Key(out[i].date, out[i].symbol) == g[i]
      ensures start <= out[i].date <= today && out[i].symbol in symbols
    {
      assert out[i].date == joined[i].date == g[i].date;
      assert out[i].symbol == joined[i].symbol == g[i].symbol;
      var k :| 0 <= k < |days| && days[k] == g[i].date;
    }
  }

  /** Every (day, symbol) pair of the range has a row in the output. */
  lemma {:induction false} FillMissingDatesCovers<V>(df: seq<Row<V>>, symbols: seq<Symbol>, start: int, today: int, date: int, symbol: Symbol)
    requires UniqueKeys(df) && Distinct(symbols)
    requires start <= date <= today && symbol in symbols
    ensures exists i :: 0 <= i < |FillMissingDates(df, symbols, start, today)| &&
              FillMissingDates(df, symbols, start, today)[i].date == date &&
              FillMissingDates(df, symbols, start, today)[i].symbol == symbol
  {
    var j :| 0 <= j < |symbols| && symbols[j] == symbol;
    FillMissingDatesAt(df, symbols, start, today, date - start, j);
  }

  /** Increasing days and distinct symbols give no repeated cell. */
  lemma {:induction false} GridUnique(days: seq<int>, symbols: seq<Symbol>)
    requires Distinct(symbols)
    requires forall a, b :: 0 <= a < b < |days| ==> days[a] < days[b]
    ensures forall a, b :: 0 <= a < b < |Grid(days, symbols)| ==> Grid(days, symbols)[a] != Grid(days, symbols)[b]
  {
    if days != [] {
      var init := days[..|days| - 1];
      var last := days[|days| - 1];
      var g := Grid(init, symbols);
      var block := Block(last, symbols);
      GridUnique(init, symbols);
      GridMembers(init, symbols);
      assert Grid(days, symbols) == g + block;
      forall a, b | 0 <= a < b < |g + block| ensures (g + block)[a] != (g + block)[b] {
        if b >= |g| && a < |g| {
          var m :| 0 <= m < |init| && init[m] == g[a].date;
          assert days[m] < last;
        }
      }
    }
  }

  /** With a symbol list free of repeats, the output has exactly one row per
      (date, symbol) pair. */
  lemma {:induction false} FillMissingDatesUnique<V>(df: seq<Row<V>>, symbols: seq<Symbol>, start: int, today: int)
    requires UniqueKeys(df) && Distinct(symbols)
    ensures UniqueKeys(FillMissingDates(df, symbols, start, today))
  {
    var days := Days(start, today);
    var out := FillMissingDates(df, symbols, start, today);
    FillMissingDatesShape(df, symbols, start, today);
    DaysAt(start, today);
    GridUnique(days, symbols);
    forall a, b | 0 <= a < b < |out| && out[a].date == out[b].date ensures out[a].symbol != out[b].symbol {
      assert Grid(days, symbols)[a] != Grid(days, symbols)[b];
    }
  }

  // ---------------------------------------------------------------------------
  // The reference, unfolded

  /** The latest observed close is the close of a fetched row of the same symbol
      dated within [start, date]: nothing from another symbol or from outside
      the range ever reaches the output. */
  lemma {:induction false} LatestObservedSource<V>(df: seq<Row<V>>, symbol: Symbol, start: int, date: int)
    requires LatestObserved(df, symbol, start, date).Some?
    ensures exists i :: 0 <= i < |df| && df[i].symbol == symbol && start <= df[i].date <= date &&
              df[i].close == LatestObserved(df, symbol, start, date)
    decreases date - start
  {
    LookupSound(df, date, symbol);
    if Lookup(df, date, symbol).None? {
      LatestObservedSource(df, symbol, start, date - 1);
    }
  }

  /** LatestObserved is None exactly when no day of [start, date] has an
      observed close. */
  lemma {:induction false} LatestObservedNone<V>(df: seq<Row<V>>, symbol: Symbol, start: int, date: int)
    ensures LatestObserved(df, symbol, start, date).None? <==>
            forall day :: start <= day <= date ==> Lookup(df, day, symbol).None?
    decreases date - start
  {
    if date >= start && Lookup(df, date, symbol).None? {
      LatestObservedNone(df, symbol, start, date - 1);
      assert LatestObserved(df, symbol, start, date) == LatestObserved(df, symbol, start, date - 1);
      assert (forall day :: start <= day <= date ==> Lookup(df, day, symbol).None?) <==>
             (forall day :: start <= day <= date - 1 ==> Lookup(df, day, symbol).None?);
    } else if date >= start {
      assert LatestObserved(df, symbol, start, date) == Lookup(df, date, symbol);
    }
  }

  /** Otherwise it is the close of the latest such day: a day with an observed
      close and none on any later day up to `date`. */
  lemma {:induction false} LatestObservedIsLatest<V>(df: seq<Row<V>>, symbol: Symbol, start: int, day: int, date: int)
    requires start <= day <= date && Lookup(df, day, symbol).Some?
    requires forall later :: day < later <= date ==> Lookup(df, later, symbol).None?
    ensures LatestObserved(df, symbol, start, date) == Lookup(df, day, symbol)
    decreases date - day
  {
    if day < date {
      LatestObservedIsLatest(df, symbol, start, day, date - 1);
    }
  }

  // ---------------------------------------------------------------------------
  // Rows outside the grid

  /** The fetched row lands in the grid: a day of [start, today] and a listed symbol. */
  predicate InGrid<V>(r: Row<V>, symbols: seq<Symbol>, start: int, today: int)
  {
    start <= r.date <= today && r.symbol in symbols
  }

  /** The fetched rows that fall inside the grid, in order. */
  function Relevant<V>(df: seq<Row<V>>, symbols: seq<Symbol>, start: int, today: int): (kept: seq<Row<V>>)
    ensures forall i :: 0 <= i < |kept| ==> kept[i] in df && InGrid(kept[i], symbols, start, today)
    ensures forall i :: 0 <= i < |df| && InGrid(df[i], symbols, start, today) ==> df[i] in kept
  {
    if df == [] then []
    else if InGrid(df[0], symbols, start, today) then [df[0]] + Relevant(df[1..], symbols, start, today)
    else Relevant(df[1..], symbols, start, today)
  }

  /** Dropping the first row keeps keys unique. */
  lemma {:induction false} UniqueKeysTail<V>(df: seq<Row<V>>)
    requires UniqueKeys(df) && df != []
    ensures UniqueKeys(df[1..])
  {
    forall a, b | 0 <= a < b < |df[1..]| && df[1..][a].date == df[1..][b].date
      ensures df[1..][a].symbol != df[1..][b].symbol
    {
      assert df[1..][a] == df[a + 1] && df[1..][b] == df[b + 1];
    }
  }

  /** Filtering the fetched rows keeps keys unique. */
  lemma {:induction false} RelevantUnique<V>(df: seq<Row<V>>, symbols: seq<Symbol>, start: int, today: int)
    requires UniqueKeys(df)
    ensures UniqueKeys(Relevant(df, symbols, start, today))
  {
    if df != [] {
      UniqueKeysTail(df);
      RelevantUnique(df[1..], symbols, start, today);
      var rest := Relevant(df[1..], symbols, start, today);
      if InGrid(df[0], symbols, start, today) {
        var kept := [df[0]] + rest;
        forall a, b | 0 <= a < b < |kept| && kept[a].date == kept[b].date ensures kept[a].symbol != kept[b].symbol {
          if a == 0 {
            assert kept[b] == rest[b - 1] && rest[b - 1] in df[1..];
            var m :| 0 <= m < |df[1..]| && df[1..][m] == rest[b - 1];
            assert df[m + 1] == kept[b];
          } else {
            assert kept[a] == rest[a - 1] && kept[b] == rest[b - 1];
          }
        }
      }
    }
  }

  /** For a cell of the grid, the merge finds the same close after filtering. */
  lemma {:induction false} RelevantLookup<V>(df: seq<Row<V>>, symbols: seq<Symbol>, start: int, today: int, date: int, symbol: Symbol)
    requires start <= date <= today && symbol in symbols
    ensures Lookup(Relevant(df, symbols, start, today), date, symbol) == Lookup(df, date, symbol)
  {
    if df != [] {
      RelevantLookup(df[1..], symbols, start, today, date, symbol);
    }
  }

  /** Fetched rows dated outside [start, today], or for a symbol not in the
      list, contribute nothing: dropping them leaves the output unchanged. */
  lemma {:induction false} FillIgnoresRowsOutsideGrid<V>(df: seq<Row<V>>, symbols: seq<Symbol>, start: int, today: int)
    requires UniqueKeys(df)
    ensures UniqueKeys(Relevant(df, symbols, start, today))
    ensures FillMissingDates(Relevant(df, symbols, start, today), symbols, start, today) == FillMissingDates(df, symbols, start, today)
  {
    RelevantUnique(df, symbols, start, today);
    var kept := Relevant(df, symbols, start, today);
    var g := Grid(Days(start, today), symbols);
    GridMembers(Days(start, today), symbols);
    DaysAt(start, today);
    forall i | 0 <= i < |g| ensures LeftJoin(g, kept)[i] == LeftJoin(g, df)[i] {
      var m :| 0 <= m < |Days(start, today)| && Days(start, today)[m] == g[i].date;
      RelevantLookup(df, symbols, start, today, g[i].date, g[i].symbol);
    }
    assert LeftJoin(g, kept) == LeftJoin(g, df);
  }

  // ---------------------------------------------------------------------------
  // Idempotence

  /** Position k of a grid of m days and n symbols is day k / n, symbol k % n. */
  lemma SplitCell(k: nat, m: nat, n: nat) returns (d: nat, j: nat)
    requires k < m * n
    ensures d < m && j < n && k == d * n + j
    ensures d == k / n && j == k % n
  {
    assert n > 0;
    d, j := k / n, k % n;
  }

  /** from_product in closed form: position k of the grid is day k / n of the
      range with symbol k % n of the list, n being the number of symbols. */
  lemma {:induction false} GridCell(days: seq<int>, symbols: seq<Symbol>, k: nat)
    requires k < |days| * |symbols|
    ensures k < |Grid(days, symbols)| && k / |symbols| < |days|
    ensures Grid(days, symbols)[k] == Key(days[k / |symbols|], symbols[k % |symbols|])
  {
    var d, j := SplitCell(k, |days|, |symbols|);
    GridAt(days, symbols, d, j);
  }

  /** A product of naturals is a natural: stated apart, because the solver finds
      this step costly inside a larger proof. */
  lemma NonNegativeProduct(a: nat, b: nat)
    ensures a * b >= 0
  {
  }

  /** On the output, the latest observed close of a day is the close the output
      already carries for it. */
  lemma {:induction false} FilledLatestObserved<V>(df: seq<Row<V>>, symbols: seq<Symbol>, start: int, today: int, j: nat, date: int)
    requires UniqueKeys(df) && Distinct(symbols) && j < |symbols| && date <= today
    ensures LatestObserved(FillMissingDates(df, symbols, start, today), symbols[j], start, date) ==
            LatestObserved(df, symbols[j], start, date)
    decreases date - start
  {
    if date >= start {
      var out := FillMissingDates(df, symbols, start, today);
      var s := symbols[j];
      NonNegativeProduct(date - start, |symbols|);
      assert Lookup(out, date, s) == LatestObserved(df, s, start, date) by {
        FillMissingDatesUnique(df, symbols, start, today);
        FillMissingDatesAt(df, symbols, start, today, date - start, j);
        LookupFinds(out, (date - start) * |symbols| + j);
      }
      FilledLatestObserved(df, symbols, start, today, j, date - 1);
      LatestObservedStep(out, s, start, date);
      LatestObservedStep(df, s, start, date);
    }
  }

  /** Reconciling the output once more, with nothing new fetched, changes
      nothing: every day of the range already has its row. */
  lemma {:induction false} FillMissingDatesIdempotent<V>(df: seq<Row<V>>, symbols: seq<Symbol>, start: int, today: int)
    requires UniqueKeys(df) && Distinct(symbols)
    ensures UniqueKeys(FillMissingDates(df, symbols, start, today))
    ensures FillMissingDates(FillMissingDates(df, symbols, start, today), symbols, start, today) ==
            FillMissingDates(df, symbols, start, today)
  {
    var out := FillMissingDates(df, symbols, start, today);
    FillMissingDatesUnique(df, symbols, start, today);
    var again := FillMissingDates(out, symbols, start, today);
    FillMissingDatesShape(df, symbols, start, today);
    FillMissingDatesShape(out, symbols, start, today);
    forall k | 0 <= k < |out| ensures again[k] == out[k] {
      var d, j := SplitCell(k, |Days(start, today)|, |symbols|);
      FillMissingDatesAt(df, symbols, start, today, d, j);
      FillMissingDatesAt(out, symbols, start, today, d, j);
      FilledLatestObserved(df, symbols, start, today, j, start + d);
    }
  }
}
