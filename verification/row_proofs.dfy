/** What `load_lines` records: exactly the non-N/A tokens under non-empty
    column names, each under its row's date, the last one read winning when a
    currency and date occur more than once; and it succeeds exactly when
    every date and every recorded token parses. */
module RowProofs {
  import opened Wrappers
  import opened Text
  import opened Dates
  import opened Rates
  import opened Loader

  // ---------------------------------------------------------------------
  // One row

  /** Pair `j` of `row` is recorded under currency `c`. */
  predicate Cell(na: set<string>, header: seq<Currency>, row: seq<string>, j: nat, c: Currency) {
    Kept(na, header, row, j) && header[j] == c
  }

  /** The last of the first `k` pairs of `row` recorded under `c`, if any. */
  function LastCell(na: set<string>, header: seq<Currency>, row: seq<string>, c: Currency, k: nat): (r: Option<nat>)
    ensures r.Some? ==> r.value < k && Cell(na, header, row, r.value, c)
  {
    if k == 0 then None
    else if Cell(na, header, row, k - 1, c) then Some(k - 1)
    else LastCell(na, header, row, c, k - 1)
  }

  /** `LastCell` finds a recorded pair exactly when there is one, and no
      later one. */
  lemma {:induction false} LastCellSpec(na: set<string>, header: seq<Currency>, row: seq<string>, c: Currency, k: nat)
    ensures LastCell(na, header, row, c, k).Some? <==> exists j: nat :: j < k && Cell(na, header, row, j, c)
    ensures LastCell(na, header, row, c, k).Some? ==>
              forall j: nat :: LastCell(na, header, row, c, k).value < j < k ==> !Cell(na, header, row, j, c)
  {
    if k > 0 && !Cell(na, header, row, k - 1, c) {
      LastCellSpec(na, header, row, c, k - 1);
    }
  }

  /** The rows's recorded tokens all parse. */
  ghost predicate CellsParse(na: set<string>, rate: string -> Option<real>, header: seq<Currency>, row: seq<string>, k: nat) {
    forall j: nat :: j < k && Kept(na, header, row, j) ==> rate(row[j + 1]).Some?
  }

  /** How the first `k` pairs of a row dated `date` turn `obs` into `r`:
      a currency or date appears exactly when it was there or one of those
      pairs records it, and a recorded (currency, date) holds the rate of
      the last pair recording it. */
  ghost predicate RowStep(na: set<string>, rate: string -> Option<real>, header: seq<Currency>, row: seq<string>,
                          date: Date, k: nat, obs: Observed, r: Observed) {
    && CurrenciesStep(na, header, row, k, obs, r)
    && DatesStep(na, header, row, date, k, obs, r)
    && OldRatesStep(na, header, row, date, k, obs, r)
    && NewRatesStep(na, rate, header, row, date, k, r)
  }

  ghost predicate CurrenciesStep(na: set<string>, header: seq<Currency>, row: seq<string>, k: nat, obs: Observed, r: Observed) {
    forall c :: c in r <==> c in obs || LastCell(na, header, row, c, k).Some?
  }

  ghost predicate DatesStep(na: set<string>, header: seq<Currency>, row: seq<string>, date: Date, k: nat,
                            obs: Observed, r: Observed) {
    forall c, d :: c in r ==>
      (d in r[c] <==> (c in obs && d in obs[c]) || (d == date && LastCell(na, header, row, c, k).Some?))
  }

  ghost predicate OldRatesStep(na: set<string>, header: seq<Currency>, row: seq<string>, date: Date, k: nat,
                               obs: Observed, r: Observed) {
    forall c, d :: c in r && d in r[c] && !(d == date && LastCell(na, header, row, c, k).Some?) ==>
      c in obs && d in obs[c] && r[c][d] == obs[c][d]
  }

  ghost predicate NewRatesStep(na: set<string>, rate: string -> Option<real>, header: seq<Currency>, row: seq<string>,
                               date: Date, k: nat, r: Observed) {
    forall c :: c in r && LastCell(na, header, row, c, k).Some? ==>
      date in r[c] && Some(r[c][date]) == rate(row[LastCell(na, header, row, c, k).value + 1])
  }

  /** The inner loop of `load_lines`: it fails exactly when a recorded token
      does not parse, and otherwise updates the table as `RowStep` says. */
  lemma {:induction false} RecordCellsSpec(na: set<string>, rate: string -> Option<real>, obs: Observed,
                                           header: seq<Currency>, row: seq<string>, date: Date, k: nat)
    requires |row| >= 1 && k <= Width(header, row)
    ensures RecordCells(na, rate, obs, header, row, date, k).Success? <==> CellsParse(na, rate, header, row, k)
    ensures RecordCells(na, rate, obs, header, row, date, k).Failure? ==>
              RecordCells(na, rate, obs, header, row, date, k).error.BadRate?
    ensures RecordCells(na, rate, obs, header, row, date, k).Success? ==>
              RowStep(na, rate, header, row, date, k, obs, RecordCells(na, rate, obs, header, row, date, k).value)
  {
    if k > 0 {
      RecordCellsSpec(na, rate, obs, header, row, date, k - 1);
      var prev := RecordCells(na, rate, obs, header, row, date, k - 1);
      if prev.Success? {
        if !Kept(na, header, row, k - 1) {
          LastCellSkip(na, header, row, k);
        } else if rate(row[k]).Some? {
          RowStepRecord(na, rate, header, row, date, k, obs, prev.value);
        } else {
          assert !CellsParse(na, rate, header, row, k);
        }
      } else {
        assert !CellsParse(na, rate, header, row, k - 1);
      }
    }
  }

  /** A recorded pair that parses extends `RowStep` by one pair. */
  lemma {:induction false} RowStepRecord(na: set<string>, rate: string -> Option<real>, header: seq<Currency>, row: seq<string>,
                      date: Date, k: nat, obs: Observed, acc: Observed)
    requires 0 < k && Kept(na, header, row, k - 1) && rate(row[k]).Some?
    requires RowStep(na, rate, header, row, date, k - 1, obs, acc)
    ensures var c0 := header[k - 1];
            RowStep(na, rate, header, row, date, k, obs,
                    acc[c0 := (if c0 in acc then acc[c0] else map[])[date := rate(row[k]).value]])
  {
    var c0 := header[k - 1];
    var r := acc[c0 := (if c0 in acc then acc[c0] else map[])[date := rate(row[k]).value]];
    LastCellRecord(na, header, row, k);
    RecordCurrencies(na, header, row, k, obs, acc, r);
    RecordDates(na, header, row, date, k, obs, acc, rate(row[k]).value, r);
    RecordOldRates(na, header, row, date, k, obs, acc, rate(row[k]).value, r);
    RecordNewRates(na, rate, header, row, date, k, acc, r);
  }

  /** A pair that is not recorded changes no currency's last record. */
  lemma {:induction false} LastCellSkip(na: set<string>, header: seq<Currency>, row: seq<string>, k: nat)
    requires 0 < k && !Kept(na, header, row, k - 1)
    ensures forall c :: LastCell(na, header, row, c, k) == LastCell(na, header, row, c, k - 1)
  {
  }

  /** A recorded pair becomes the last record of its currency, and of no
      other. */
  lemma {:induction false} LastCellRecord(na: set<string>, header: seq<Currency>, row: seq<string>, k: nat)
    requires 0 < k && Kept(na, header, row, k - 1)
    ensures LastCell(na, header, row, header[k - 1], k) == Some(k - 1)
    ensures forall c :: c != header[k - 1] ==> LastCell(na, header, row, c, k) == LastCell(na, header, row, c, k - 1)
  {
  }

  lemma {:induction false} RecordCurrencies(na: set<string>, header: seq<Currency>, row: seq<string>, k: nat,
                         obs: Observed, acc: Observed, r: Observed)
    requires 0 < k && Kept(na, header, row, k - 1)
    requires LastCell(na, header, row, header[k - 1], k) == Some(k - 1)
    requires forall c :: c != header[k - 1] ==> LastCell(na, header, row, c, k) == LastCell(na, header, row, c, k - 1)
    requires CurrenciesStep(na, header, row, k - 1, obs, acc)
    requires r.Keys == acc.Keys + {header[k - 1]}
    ensures CurrenciesStep(na, header, row, k, obs, r)
  {
  }

  lemma {:induction false} RecordDates(na: set<string>, header: seq<Currency>, row: seq<string>, date: Date, k: nat,
                    obs: Observed, acc: Observed, v: real, r: Observed)
    requires 0 < k && Kept(na, header, row, k - 1)
    requires LastCell(na, header, row, header[k - 1], k) == Some(k - 1)
    requires forall c :: c != header[k - 1] ==> LastCell(na, header, row, c, k) == LastCell(na, header, row, c, k - 1)
    requires DatesStep(na, header, row, date, k - 1, obs, acc)
    requires obs.Keys <= acc.Keys
    requires var c0 := header[k - 1];
             r == acc[c0 := (if c0 in acc then acc[c0] else map[])[date := v]]
    ensures DatesStep(na, header, row, date, k, obs, r)
  {
    var c0 := header[k - 1];
    forall c, d | c in r
      ensures d in r[c] <==> (c in obs && d in obs[c]) || (d == date && LastCell(na, header, row, c, k).Some?)
    {
      if c != c0 {
        assert r[c] == acc[c];
      } else if c0 in acc {
        assert d in acc[c0] <==> (c in obs && d in obs[c]) || (d == date && LastCell(na, header, row, c, k - 1).Some?);
      }
    }
  }

  lemma {:induction false} RecordOldRates(na: set<string>, header: seq<Currency>, row: seq<string>, date: Date, k: nat,
                       obs: Observed, acc: Observed, v: real, r: Observed)
    requires 0 < k && Kept(na, header, row, k - 1)
    requires LastCell(na, header, row, header[k - 1], k) == Some(k - 1)
    requires forall c :: c != header[k - 1] ==> LastCell(na, header, row, c, k) == LastCell(na, header, row, c, k - 1)
    requires OldRatesStep(na, header, row, date, k - 1, obs, acc)
    requires var c0 := header[k - 1];
             r == acc[c0 := (if c0 in acc then acc[c0] else map[])[date := v]]
    ensures OldRatesStep(na, header, row, date, k, obs, r)
  {
    var c0 := header[k - 1];
    forall c, d | c in r && d in r[c] && !(d == date && LastCell(na, header, row, c, k).Some?)
      ensures c in obs && d in obs[c] && r[c][d] == obs[c][d]
    {
      if c == c0 {
        assert d != date && c0 in acc && d in acc[c0];
        assert r[c][d] == acc[c0][d];
      } else {
        assert r[c] == acc[c];
      }
    }
  }

  lemma {:induction false} RecordNewRates(na: set<string>, rate: string -> Option<real>, header: seq<Currency>, row: seq<string>,
                       date: Date, k: nat, acc: Observed, r: Observed)
    requires 0 < k && Kept(na, header, row, k - 1) && rate(row[k]).Some?
    requires LastCell(na, header, row, header[k - 1], k) == Some(k - 1)
    requires forall c :: c != header[k - 1] ==> LastCell(na, header, row, c, k) == LastCell(na, header, row, c, k - 1)
    requires NewRatesStep(na, rate, header, row, date, k - 1, acc)
    requires var c0 := header[k - 1];
             r == acc[c0 := (if c0 in acc then acc[c0] else map[])[date := rate(row[k]).value]]
    ensures NewRatesStep(na, rate, header, row, date, k, r)
  {
    var c0 := header[k - 1];
    forall c | c in r && LastCell(na, header, row, c, k).Some?
      ensures date in r[c] && Some(r[c][date]) == rate(row[LastCell(na, header, row, c, k).value + 1])
    {
      if c != c0 {
        assert r[c] == acc[c];
      }
    }
  }

  /** A map that contains a non-empty map's keys is not empty. */
  lemma {:induction false} KeysNonEmpty(a: map<Date, real>, b: map<Date, real>)
    requires a != map[] && a.Keys <= b.Keys
    ensures b != map[]
  {
  }

  // ---------------------------------------------------------------------
  // All rows

  /** The `j`-th line after the header records the token of its pair `k`
      as the rate of `c` on `d`. */
  predicate Recorded(cfg: Config, p: Parsers, header: seq<Currency>, rows: seq<Row>,
                     j: nat, k: nat, c: Currency, d: Date) {
    && j < |rows|
    && p.date(rows[j][0]) == Some(d)
    && Cell(cfg.naValues, header, rows[j], k, c)
  }

  /** The token at pair `k` of line `j`. */
  function Token(rows: seq<Row>, j: nat, k: nat): string
    requires j < |rows| && k + 1 < |rows[j]|
  {
    rows[j][k + 1]
  }

  /** The line and pair of the last record of `c` on `d` among the first
      `i` lines, if any. */
  function LastWrite(cfg: Config, p: Parsers, header: seq<Currency>, rows: seq<Row>,
                     c: Currency, d: Date, i: nat): (w: Option<(nat, nat)>)
    requires i <= |rows|
    ensures w.Some? ==> w.value.0 < i && Recorded(cfg, p, header, rows, w.value.0, w.value.1, c, d)
  {
    if i == 0 then None
    else
      var row := rows[i - 1];
      var last := LastCell(cfg.naValues, header, row, c, Width(header, row));
      if p.date(row[0]) == Some(d) && last.Some? then Some((i - 1, last.value))
      else LastWrite(cfg, p, header, rows, c, d, i - 1)
  }

  /** `LastWrite` finds a record exactly when there is one, and every other
      record of the same currency and date comes before it. */
  lemma {:induction false} LastWriteSpec(cfg: Config, p: Parsers, header: seq<Currency>, rows: seq<Row>,
                                         c: Currency, d: Date, i: nat)
    requires i <= |rows|
    ensures LastWrite(cfg, p, header, rows, c, d, i).Some? <==>
              exists j: nat, k: nat :: j < i && Recorded(cfg, p, header, rows, j, k, c, d)
    ensures LastWrite(cfg, p, header, rows, c, d, i).Some? ==>
              var w := LastWrite(cfg, p, header, rows, c, d, i).value;
              forall j: nat, k: nat :: j < i && Recorded(cfg, p, header, rows, j, k, c, d) ==>
                j < w.0 || (j == w.0 && k <= w.1)
  {
    if i > 0 {
      var row := rows[i - 1];
      var n := Width(header, row);
      LastWriteSpec(cfg, p, header, rows, c, d, i - 1);
      LastCellSpec(cfg.naValues, header, row, c, n);
      forall k: nat | Cell(cfg.naValues, header, row, k, c)
        ensures k < n
      {
      }
    }
  }

  /** Every line up to `i` has a date that parses and recorded tokens that
      parse. */
  ghost predicate RowsParse(cfg: Config, p: Parsers, header: seq<Currency>, rows: seq<Row>, i: nat)
    requires i <= |rows|
  {
    forall j :: 0 <= j < i ==>
      && p.date(rows[j][0]).Some?
      && CellsParse(cfg.naValues, p.rate, header, rows[j], Width(header, rows[j]))
  }

  /** The table after the first `i` lines: exactly the recorded (currency,
      date) pairs, each with the rate of its last record. */
  ghost predicate Holds(cfg: Config, p: Parsers, header: seq<Currency>, rows: seq<Row>, i: nat, obs: Observed)
    requires i <= |rows|
  {
    && Proper(obs)
    && (forall c, d :: c in obs && d in obs[c] <==> LastWrite(cfg, p, header, rows, c, d, i).Some?)
    && (forall c, d :: c in obs && d in obs[c] ==>
          var w := LastWrite(cfg, p, header, rows, c, d, i).value;
          Some(obs[c][d]) == p.rate(Token(rows, w.0, w.1)))
  }

  /** The outer loop of `load_lines`: it fails exactly when some date or
      recorded token does not parse, and otherwise builds the table `Holds`
      describes. */
  lemma {:induction false} ReadRowsSpec(cfg: Config, p: Parsers, header: seq<Currency>, rows: seq<Row>, i: nat)
    requires i <= |rows|
    ensures ReadRows(cfg, p, header, rows, i).Success? <==> RowsParse(cfg, p, header, rows, i)
    ensures ReadRows(cfg, p, header, rows, i).Failure? ==>
              ReadRows(cfg, p, header, rows, i).error.BadDate? || ReadRows(cfg, p, header, rows, i).error.BadRate?
    ensures ReadRows(cfg, p, header, rows, i).Success? ==>
              Holds(cfg, p, header, rows, i, ReadRows(cfg, p, header, rows, i).value)
  {
    if i > 0 {
      ReadRowsSpec(cfg, p, header, rows, i - 1);
      var prev := ReadRows(cfg, p, header, rows, i - 1);
      var row := rows[i - 1];
      var n := Width(header, row);
      if prev.Success? && p.date(row[0]).Some? {
        var date := p.date(row[0]).value;
        RecordCellsSpec(cfg.naValues, p.rate, prev.value, header, row, date, n);
        if RecordCells(cfg.naValues, p.rate, prev.value, header, row, date, n).Success? {
          RowsExtend(cfg, p, header, rows, i, prev.value, date,
                     RecordCells(cfg.naValues, p.rate, prev.value, header, row, date, n).value);
        }
      }
    }
  }

  /** One more row keeps `Holds`. */
  lemma {:induction false} RowsExtend(cfg: Config, p: Parsers, header: seq<Currency>, rows: seq<Row>, i: nat,
                   obs: Observed, date: Date, r: Observed)
    requires 0 < i <= |rows|
    requires Holds(cfg, p, header, rows, i - 1, obs)
    requires p.date(rows[i - 1][0]) == Some(date)
    requires RowStep(cfg.naValues, p.rate, header, rows[i - 1], date,
                     Width(header, rows[i - 1]), obs, r)
    ensures Holds(cfg, p, header, rows, i, r)
  {
    var row := rows[i - 1];
    var n := Width(header, row);
    forall c | c in r
      ensures r[c] != map[]
    {
      if c in obs {
        forall d | d in obs[c]
          ensures d in r[c]
        {
        }
        KeysNonEmpty(obs[c], r[c]);
      } else {
        assert date in r[c];
      }
    }
    forall c, d | c in r && d in r[c]
      ensures var w := LastWrite(cfg, p, header, rows, c, d, i).value;
              Some(r[c][d]) == p.rate(Token(rows, w.0, w.1))
    {
    }
  }
}
