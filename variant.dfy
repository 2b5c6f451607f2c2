/** add_d_variant: the frame followed by a copy of itself whose symbols carry
    the ".d" suffix, so each ticker is published under both names. */
module Variant {
  import opened Frames
  import Reconcile

  /** The suffix appended to every symbol of the copy. */
  const DSuffix: string := ".d"

  /** Whether a symbol already ends with the suffix. */
  predicate HasDSuffix(symbol: Symbol)
  {
    |symbol| >= |DSuffix| && symbol[|symbol| - |DSuffix|..] == DSuffix
  }

  /** One row of the copy: the same date and close, the symbol with ".d". */
  function WithDSuffix<V>(r: Row<V>): Row<V>
  {
    r.(symbol := r.symbol + DSuffix)
  }

  /** The copy of the frame: df_d["symbol"] = df_d["symbol"] + ".d". */
  function DCopy<V>(rows: seq<Row<V>>): seq<Row<V>>
  {
    seq(|rows|, i requires 0 <= i < |rows| => WithDSuffix(rows[i]))
  }

  /** add_d_variant: pd.concat([df, df_d], ignore_index=True). The output is
      twice as long, its first half is the input unchanged, and entry n + i is
      input row i with ".d" appended to the symbol, date and close unchanged. */
  function AddDVariant<V>(rows: seq<Row<V>>): (r: seq<Row<V>>)
    ensures |r| == 2 * |rows|
    ensures r[..|rows|] == rows
    ensures forall i :: 0 <= i < |rows| ==>
              r[|rows| + i].date == rows[i].date &&
              r[|rows| + i].close == rows[i].close &&
              r[|rows| + i].symbol == rows[i].symbol + ".d"
  {
    rows + DCopy(rows)
  }

  /** The symbol a row of the copy was made from: the suffix taken off. */
  function StripDSuffix(symbol: Symbol): Symbol
    requires HasDSuffix(symbol)
  {
    symbol[..|symbol| - |DSuffix|]
  }

  /** The inverse of the copy: every symbol with the suffix taken off. */
  function StripDCopy<V>(rows: seq<Row<V>>): seq<Row<V>>
    requires forall i :: 0 <= i < |rows| ==> HasDSuffix(rows[i].symbol)
  {
    seq(|rows|, i requires 0 <= i < |rows| => rows[i].(symbol := StripDSuffix(rows[i].symbol)))
  }

  /** Every symbol of the second half carries the suffix, and taking it off
      gives back the input: the copy loses nothing. */
  lemma {:induction false} AddDVariantRoundTrip<V>(rows: seq<Row<V>>)
    ensures forall i :: |rows| <= i < |AddDVariant(rows)| ==> HasDSuffix(AddDVariant(rows)[i].symbol)
    ensures StripDCopy(AddDVariant(rows)[|rows|..]) == rows
  {
    var r := AddDVariant(rows);
    var n := |rows|;
    forall i | n <= i < |r| ensures HasDSuffix(r[i].symbol) {
      SuffixAppended(rows[i - n].symbol);
    }
    forall i | 0 <= i < n ensures StripDCopy(r[n..])[i] == rows[i] {
      var s := rows[i].symbol;
      assert r[n + i].symbol == s + DSuffix;
      assert (s + DSuffix)[..|s|] == s;
    }
  }

  /** Appending the suffix is injective. */
  lemma {:induction false} SuffixInjective(a: Symbol, b: Symbol)
    requires a + DSuffix == b + DSuffix
    ensures a == b
  {
    assert |a| == |b|;
    assert a == (a + DSuffix)[..|a|];
    assert b == (b + DSuffix)[..|b|];
  }

  /** A symbol with the suffix appended has the suffix. */
  lemma {:induction false} SuffixAppended(a: Symbol)
    ensures HasDSuffix(a + DSuffix)
  {
    assert (a + DSuffix)[|a|..] == DSuffix;
  }

  /** When no input symbol already ends in ".d", the copies never collide with
      the originals nor with each other, so a frame with one row per (date,
      symbol) keeps that property. */
  lemma {:induction false} AddDVariantKeepsKeysUnique<V>(rows: seq<Row<V>>)
    requires UniqueKeys(rows)
    requires forall i :: 0 <= i < |rows| ==> !HasDSuffix(rows[i].symbol)
    ensures UniqueKeys(AddDVariant(rows))
  {
    var r := AddDVariant(rows);
    var n := |rows|;
    forall a, b | 0 <= a < b < |r| && r[a].date == r[b].date
      ensures r[a].symbol != r[b].symbol
    {
      if b < n {
        assert r[a] == rows[a] && r[b] == rows[b];
      } else if a < n {
        SuffixAppended(rows[b - n].symbol);
        assert r[a].symbol == rows[a].symbol;
      } else {
        assert rows[a - n].date == rows[b - n].date;
        if r[a].symbol == r[b].symbol {
          SuffixInjective(rows[a - n].symbol, rows[b - n].symbol);
        }
      }
    }
  }

  /** Lines 115-118 with ADD_D_VARIANT set: the filled grid for a list of
      distinct symbols, none ending in ".d", then its ".d" copy, holds at most
      one row per (date, symbol). */
  lemma {:induction false} PreparedRowsUnique<V>(df: seq<Row<V>>, symbols: seq<Symbol>, start: int, today: int)
    requires UniqueKeys(df) && Distinct(symbols)
    requires forall j :: 0 <= j < |symbols| ==> !HasDSuffix(symbols[j])
    ensures UniqueKeys(AddDVariant(Reconcile.FillMissingDates(df, symbols, start, today)))
  {
    var filled := Reconcile.FillMissingDates(df, symbols, start, today);
    Reconcile.FillMissingDatesUnique(df, symbols, start, today);
    Reconcile.FillMissingDatesShape(df, symbols, start, today);
    forall i | 0 <= i < |filled| ensures !HasDSuffix(filled[i].symbol) {
      var j :| 0 <= j < |symbols| && symbols[j] == filled[i].symbol;
    }
    AddDVariantKeepsKeysUnique(filled);
  }
}
