/** The BeatTheBookie odds series (app/ingestion/beatthebookie_series.py): two on-disk layouts of one
    32 x 216 matrix and what is derived from it. Turning a token into a number is a parameter. */
module OddsMatrix {
  import opened Prelude

  const N_HOURS := 72
  const N_COLS := 216
  const N_BOOKS := 32
  const CSV_DATA_START := 5

  /** One book's prices: 72 home, 72 draw and 72 away hours. */
  type Row = r: seq<Option<real>> | |r| == N_COLS witness seq(N_COLS, _ => None)

  datatype Triple = Triple(home: real, draw: real, away: real)

  datatype Line = Line(blank: bool, tokens: seq<string>)

  datatype SeriesMatch = SeriesMatch(
    result: char, openConsensus: Triple, openBest: Triple, closeConsensus: Triple, closeBest: Triple,
    nBooksOpen: nat, nBooksClose: nat)

  /** A matrix cell: decimal odds above one, or nothing. */
  function Cell(number: string -> Option<real>, token: string): (v: Option<real>)
    ensures v.Some? ==> v.value > 1.0
  {
    var v := number(token);
    if v.Some? && v.value > 1.0 then v else None
  }

  function Cells(number: string -> Option<real>, tokens: seq<string>): (r: seq<Option<real>>)
    ensures |r| == |tokens| && forall c :: 0 <= c < |tokens| ==> r[c] == Cell(number, tokens[c])
  {
    seq(|tokens|, c requires 0 <= c < |tokens| => Cell(number, tokens[c]))
  }

  function Nones(n: nat): (r: seq<Option<real>>)
    ensures |r| == n && forall c :: 0 <= c < n ==> r[c] == None
  {
    seq(n, _ => None)
  }

  /** The matrix is exactly 32 x 216 and cell (b, c) is what `at` says. */
  ghost predicate IsGrid(m: seq<Row>, at: (int, int) -> Option<real>) {
    && |m| == N_BOOKS
    && forall b, c :: 0 <= b < N_BOOKS && 0 <= c < N_COLS ==> m[b][c] == at(b, c)
  }

  function NotBlank(): Line -> bool { (l: Line) => !l.blank }

  /** What the text layout says about a cell. */
  function TextCell(number: string -> Option<real>, lines: seq<Line>, b: int, c: int): (v: Option<real>)
    ensures v.Some? ==> v.value > 1.0
  {
    var kept := Filter(NotBlank(), lines);
    if 0 <= b < |kept| && 0 <= c < |kept[b].tokens| then Cell(number, kept[b].tokens[c]) else None
  }

  /** What the book-major CSV layout says about a cell. */
  function CsvCell(number: string -> Option<real>, values: seq<string>, b: int, c: int): (v: Option<real>)
    ensures v.Some? ==> v.value > 1.0
  {
    var at := CSV_DATA_START + b * N_COLS + c;
    if 0 <= b && 0 <= c && at < |values| then Cell(number, values[at]) else None
  }

  ghost predicate ReadsText(m: seq<Row>, number: string -> Option<real>, lines: seq<Line>) {
    IsGrid(m, (b, c) => TextCell(number, lines, b, c))
  }

  ghost predicate ReadsCsv(m: seq<Row>, number: string -> Option<real>, values: seq<string>) {
    IsGrid(m, (b, c) => CsvCell(number, values, b, c))
  }

  /** One line, padded or cut to the width of the matrix. */
  method ParseLine(number: string -> Option<real>, tokens: seq<string>) returns (row: Row)
    ensures forall c :: 0 <= c < N_COLS ==> row[c] == if c < |tokens| then Cell(number, tokens[c]) else None
  {
    var cells := Cells(number, tokens);
    if |cells| < N_COLS {
      cells := cells + Nones(N_COLS - |cells|);
    }
    row := cells[..N_COLS];
  }

  /** Whatever the file holds, the result is rectangular, and no cell of the first 32 lines is lost. */
  method ParseOddsMatrix(number: string -> Option<real>, lines: seq<Line>) returns (m: seq<Row>)
    ensures ReadsText(m, number, lines)
  {
    m := [];
    ghost var kept := Filter(NotBlank(), lines);
    for i := 0 to |lines|
      invariant |m| == |Filter(NotBlank(), lines[..i])|
      invariant forall b, c :: 0 <= b < |m| && 0 <= c < N_COLS ==>
                  m[b][c] == var t := Filter(NotBlank(), lines[..i])[b].tokens; if c < |t| then Cell(number, t[c])
                    else None
    {
      FilterSnoc(NotBlank(), lines, i);
      if !lines[i].blank {
        var row := ParseLine(number, lines[i].tokens);
        m := m + [row];
      }
    }
    assert lines[..|lines|] == lines;
    while |m| < N_BOOKS
      invariant |kept| <= |m| && (|m| > N_BOOKS ==> |m| == |kept|)
      invariant forall b, c :: 0 <= b < |m| && 0 <= c < N_COLS ==>
                  m[b][c] == if b < |kept| && c < |kept[b].tokens| then Cell(number, kept[b].tokens[c]) else None
    {
      m := m + [Nones(N_COLS)];
    }
    m := m[..N_BOOKS];
  }

  method MatrixFromCsvValues(number: string -> Option<real>, values: seq<string>) returns (m: seq<Row>)
    ensures ReadsCsv(m, number, values)
  {
    m := [];
    for b := 0 to N_BOOKS
      invariant |m| == b
      invariant forall k, c :: 0 <= k < b && 0 <= c < N_COLS ==> m[k][c] == CsvCell(number, values, k, c)
    {
      var base := CSV_DATA_START + b * N_COLS;
      var tokens := if base >= |values| then [] else if base + N_COLS <= |values| then values[base..base + N_COLS]
        else values[base..];
      var row := ParseLine(number, tokens);
      m := m + [row];
    }
  }

  // ---- the two layouts agree ----

  /** The rows of a token grid, one after the other. */
  function BookMajor(grid: seq<seq<string>>): seq<string> {
    if grid == [] then [] else BookMajor(grid[..|grid| - 1]) + grid[|grid| - 1]
  }

  lemma {:induction false} BookMajorAt(grid: seq<seq<string>>, b: nat, c: nat)
    requires forall k :: 0 <= k < |grid| ==> |grid[k]| == N_COLS
    requires b < |grid| && c < N_COLS
    ensures |BookMajor(grid)| == |grid| * N_COLS
    ensures 0 <= b * N_COLS + c < |BookMajor(grid)| && BookMajor(grid)[b * N_COLS + c] == grid[b][c]
  {
    var n := |grid| - 1;
    if b < n {
      BookMajorAt(grid[..n], b, c);
    } else {
      if n > 0 { BookMajorAt(grid[..n], 0, 0); }
    }
  }

  function TextLines(grid: seq<seq<string>>): (ls: seq<Line>)
    ensures |ls| == |grid| && forall b :: 0 <= b < |grid| ==> ls[b] == Line(false, grid[b])
  {
    seq(|grid|, b requires 0 <= b < |grid| => Line(false, grid[b]))
  }

  /** Laying any token grid out book-major behind the five leading cells and reshaping it gives the matrix
      parsed from its lines. */
  lemma LayoutsAgree(
    number: string -> Option<real>, grid: seq<seq<string>>, lead: seq<string>, fromText: seq<Row>, fromCsv: seq<Row>)
    requires |grid| == N_BOOKS && forall b :: 0 <= b < N_BOOKS ==> |grid[b]| == N_COLS
    requires |lead| == CSV_DATA_START
    requires ReadsText(fromText, number, TextLines(grid)) && ReadsCsv(fromCsv, number, lead + BookMajor(grid))
    ensures fromText == fromCsv
  {
    FilterAll(NotBlank(), TextLines(grid));
    forall b, c | 0 <= b < N_BOOKS && 0 <= c < N_COLS ensures fromText[b][c] == fromCsv[b][c] {
      BookMajorAt(grid, b, c);
      var at := CSV_DATA_START + b * N_COLS + c;
      assert (lead + BookMajor(grid))[at] == grid[b][c];
      assert fromText[b][c] == Cell(number, grid[b][c]);
    }
    forall b | 0 <= b < N_BOOKS ensures fromText[b] == fromCsv[b] {
    }
  }

  /** Both readers only ever deliver prices above one. */
  lemma GridsArePriced(number: string -> Option<real>, m: seq<Row>, lines: seq<Line>, values: seq<string>)
    requires ReadsText(m, number, lines) || ReadsCsv(m, number, values)
    ensures Priced(m)
  {
    forall b, c | 0 <= b < N_BOOKS && 0 <= c < N_COLS
      ensures m[b][c] == TextCell(number, lines, b, c) || m[b][c] == CsvCell(number, values, b, c)
    {
    }
    hide TextCell, CsvCell;
  }

  // ---- open, close and aggregates ----

  ghost predicate Priced(m: seq<Row>) {
    forall b, c :: 0 <= b < |m| && 0 <= c < N_COLS && m[b][c].Some? ==> m[b][c].value > 1.0
  }

  /** All three outcomes are priced in this hour. */
  predicate Coherent(row: Row, col: int)
    requires 0 <= col < N_HOURS
  {
    row[col].Some? && row[N_HOURS + col].Some? && row[2 * N_HOURS + col].Some?
  }

  function TripleAt(row: Row, col: int): Triple
    requires 0 <= col < N_HOURS && Coherent(row, col)
  {
    Triple(row[col].value, row[N_HOURS + col].value, row[2 * N_HOURS + col].value)
  }

  /** The columns of the wide CSV: book b's home, draw and away price of an hour lie 72 cells apart. */
  lemma CsvColumnsAreOutcomes(number: string -> Option<real>, m: seq<Row>, values: seq<string>, b: nat, hour: nat)
    requires ReadsCsv(m, number, values) && b < 32 && hour < 72
    ensures Coherent(m[b], hour) <==>
              && 5 + 216 * b + 144 + hour < |values|
              && Cell(number, values[5 + 216 * b + hour]).Some?
              && Cell(number, values[5 + 216 * b + 72 + hour]).Some?
              && Cell(number, values[5 + 216 * b + 144 + hour]).Some?
    ensures Coherent(m[b], hour) ==>
              var t := TripleAt(m[b], hour);
              && number(values[5 + 216 * b + hour]) == Some(t.home)
              && number(values[5 + 216 * b + 72 + hour]) == Some(t.draw)
              && number(values[5 + 216 * b + 144 + hour]) == Some(t.away)
  {
    assert m[b][hour] == CsvCell(number, values, b, hour);
    assert m[b][72 + hour] == CsvCell(number, values, b, 72 + hour);
    assert m[b][144 + hour] == CsvCell(number, values, b, 144 + hour);
  }

  predicate Quotes(row: Row)
  {
    exists col :: 0 <= col < N_HOURS && Coherent(row, col)
  }

  /** The first coherent hour from `col` on. */
  function FirstHour(row: Row, col: nat): (h: Option<nat>)
    requires col <= N_HOURS
    ensures h.None? ==> forall k :: col <= k < N_HOURS ==> !Coherent(row, k)
    ensures h.Some? ==> col <= h.value < N_HOURS && Coherent(row, h.value) && forall k :: col <= k < h.value ==>
            !Coherent(row, k)
    decreases N_HOURS - col
  {
    if col == N_HOURS then None else if Coherent(row, col) then Some(col) else FirstHour(row, col + 1)
  }

  /** The last coherent hour before `col`. */
  function LastHour(row: Row, col: nat): (h: Option<nat>)
    requires col <= N_HOURS
    ensures h.None? ==> forall k :: 0 <= k < col ==> !Coherent(row, k)
    ensures h.Some? ==> h.value < col && Coherent(row, h.value) && forall k :: h.value < k < col ==> !Coherent(row, k)
  {
    if col == 0 then None else if Coherent(row, col - 1) then Some(col - 1) else LastHour(row, col - 1)
  }

  function Opening(row: Row): Option<Triple>
  {
    var h := FirstHour(row, 0);
    if h.None? then None else Some(TripleAt(row, h.value))
  }

  function Closing(row: Row): Option<Triple>
  {
    var h := LastHour(row, N_HOURS);
    if h.None? then None else Some(TripleAt(row, h.value))
  }

  /** One pass over the hours finds the first and the last coherent quote. */
  method BookOpenClose(row: Row) returns (opening: Option<Triple>, closing: Option<Triple>)
    ensures opening == Opening(row) && closing == Closing(row)
    ensures opening.Some? == closing.Some? == Quotes(row)
  {
    opening, closing := None, None;
    ghost var first: nat := 0;
    for col := 0 to N_HOURS
      invariant opening.None? ==> forall k :: 0 <= k < col ==> !Coherent(row, k)
      invariant opening.Some? ==> first < col && Coherent(row, first) && opening.value == TripleAt(row, first)
      invariant opening.Some? ==> forall k :: 0 <= k < first ==> !Coherent(row, k)
      invariant closing == var h := LastHour(row, col); if h.None? then None else Some(TripleAt(row, h.value))
    {
      if Coherent(row, col) {
        var triple := TripleAt(row, col);
        if opening.None? {
          opening := Some(triple);
          first := col;
        }
        closing := Some(triple);
      }
    }
    assert opening.Some? ==> FirstHour(row, 0) == Some(first);
  }

  function Home(t: Triple): real { t.home }

  function Draw(t: Triple): real { t.draw }

  function Away(t: Triple): real { t.away }

  function MeanOf(f: Triple -> real, ts: seq<Triple>): real
    requires ts != []
  {
    Sum(f, ts) / |ts| as real
  }

  function MaxOf(f: Triple -> real, ts: seq<Triple>): (m: real)
    requires ts != []
    ensures forall t :: t in ts ==> f(t) <= m
    ensures exists t :: t in ts && f(t) == m
  {
    if |ts| == 1 then f(ts[0])
    else
      assert ts == [ts[0]] + ts[1..];
      Max(f(ts[0]), MaxOf(f, ts[1..]))
  }

  function Consensus(ts: seq<Triple>): Triple
    requires ts != []
  {
    Triple(MeanOf(Home, ts), MeanOf(Draw, ts), MeanOf(Away, ts))
  }

  function Best(ts: seq<Triple>): Triple
    requires ts != []
  {
    Triple(MaxOf(Home, ts), MaxOf(Draw, ts), MaxOf(Away, ts))
  }

  lemma {:induction false} SumBetween(f: Triple -> real, ts: seq<Triple>, lo: real, hi: real)
    requires forall t :: t in ts ==> lo < f(t) <= hi
    ensures Sum(f, ts) <= Times(hi, |ts| as real)
    ensures ts != [] ==> Sum(f, ts) > Times(lo, |ts| as real)
  {
    hide Times;
    TimesOrder(0.0, 0.0, hi);
    TimesOrder(0.0, 0.0, lo);
    if ts != [] {
      assert ts == [ts[0]] + ts[1..];
      SumBetween(f, ts[1..], lo, hi);
      TimesDistribute(|ts[1..]| as real, 1.0, hi);
      TimesDistribute(|ts[1..]| as real, 1.0, lo);
    }
  }

  lemma MeanIsBelowMax(f: Triple -> real, ts: seq<Triple>)
    requires ts != [] && forall t :: t in ts ==> f(t) > 1.0
    ensures Times(MeanOf(f, ts), |ts| as real) == Sum(f, ts)
    ensures 1.0 < MeanOf(f, ts) <= MaxOf(f, ts)
  {
    SumBetween(f, ts, 1.0, MaxOf(f, ts));
    MeanTimesCount(f, ts);
    hide Times, MeanOf, Sum;
    var mean, n := MeanOf(f, ts), |ts| as real;
    TimesCompare(mean, MaxOf(f, ts), n);
    TimesCompare(1.0, mean, n);
  }

  lemma MeanTimesCount(f: Triple -> real, ts: seq<Triple>)
    requires ts != []
    ensures Times(MeanOf(f, ts), |ts| as real) == Sum(f, ts)
  {
    hide Sum;
  }

  predicate Above(t: Triple, floor: real) { t.home > floor && t.draw > floor && t.away > floor }

  predicate AtLeast(t: Triple, u: Triple) { t.home >= u.home && t.draw >= u.draw && t.away >= u.away }

  lemma BestIsAtLeastConsensus(ts: seq<Triple>)
    requires ts != [] && forall t :: t in ts ==> Above(t, 1.0)
    ensures AtLeast(Best(ts), Consensus(ts)) && Above(Consensus(ts), 1.0)
    ensures var best, mean := Best(ts), Consensus(ts);
            best.home >= mean.home > 1.0 && best.draw >= mean.draw > 1.0 && best.away >= mean.away > 1.0
  {
    MeanIsBelowMax(Home, ts);
    MeanIsBelowMax(Draw, ts);
    MeanIsBelowMax(Away, ts);
  }

  function QuotingBooks(m: seq<Row>): nat
    requires Priced(m)
  {
    if m == [] then 0 else QuotingBooks(m[..|m| - 1]) + if Quotes(m[|m| - 1]) then 1 else 0
  }

  /** The opening quotes of the books that have one, in book order. */
  function Opens(m: seq<Row>): seq<Triple>
    requires Priced(m)
  {
    if m == [] then []
    else
      var o := Opening(m[|m| - 1]);
      Opens(m[..|m| - 1]) + if o.Some? then [o.value] else []
  }

  function Closes(m: seq<Row>): seq<Triple>
    requires Priced(m)
  {
    if m == [] then []
    else
      var c := Closing(m[|m| - 1]);
      Closes(m[..|m| - 1]) + if c.Some? then [c.value] else []
  }

  lemma QuoteMeansBoth(row: Row)
    ensures Opening(row).Some? == Closing(row).Some? == Quotes(row)
  {
  }

  lemma SampleIsPriced(row: Row)
    requires forall c :: 0 <= c < N_COLS && row[c].Some? ==> row[c].value > 1.0
    ensures Opening(row).Some? ==> Above(Opening(row).value, 1.0)
    ensures Closing(row).Some? ==> Above(Closing(row).value, 1.0)
  {
  }

  /** Opening and closing samples rest on the same books, and every quote in them is a real price. */
  lemma {:induction false} SamplesMatch(m: seq<Row>)
    requires Priced(m)
    ensures |Opens(m)| == |Closes(m)| == QuotingBooks(m)
    ensures QuotingBooks(m) == 0 <==> forall b :: 0 <= b < |m| ==> !Quotes(m[b])
    ensures forall t :: t in Opens(m) || t in Closes(m) ==> Above(t, 1.0)
  {
    if m != [] {
      var n := |m| - 1;
      SamplesMatch(m[..n]);
      QuoteMeansBoth(m[n]);
      SampleIsPriced(m[n]);
      assert forall b :: 0 <= b < n ==> m[b] == m[..n][b];
      hide Quotes, Opening, Closing, Above;
    }
  }

  function ResultChar(home: int, away: int): char { if home > away then 'H' else if home < away then 'A' else 'D' }

  /** A match is derived exactly when some book quotes all three outcomes in some hour; both snapshots then
      rest on the same books, and the best line is never below a consensus that is a real price. */
  method BuildSeriesMatch(homeScore: int, awayScore: int, m: seq<Row>) returns (r: Option<SeriesMatch>)
    requires Priced(m)
    ensures r.None? <==> forall b :: 0 <= b < |m| ==> !Quotes(m[b])
    ensures r.Some? ==>
              var s := r.value;
              && s.nBooksOpen == s.nBooksClose == QuotingBooks(m) > 0
              && s.result == ResultChar(homeScore, awayScore)
              && Opens(m) != [] && s.openConsensus == Consensus(Opens(m)) && s.openBest == Best(Opens(m))
              && Closes(m) != [] && s.closeConsensus == Consensus(Closes(m)) && s.closeBest == Best(Closes(m))
              && AtLeast(s.openBest, s.openConsensus) && AtLeast(s.closeBest, s.closeConsensus)
              && Above(s.openConsensus, 1.0) && Above(s.closeConsensus, 1.0)
  {
    hide Consensus, Best, Opening, Closing, Quotes;
    var opens, closes: seq<Triple> := [], [];
    for i := 0 to |m|
      invariant opens == Opens(m[..i]) && closes == Closes(m[..i])
    {
      assert m[..i + 1][..i] == m[..i];
      var opening, closing := BookOpenClose(m[i]);
      if opening.Some? {
        opens := opens + [opening.value];
      }
      if closing.Some? {
        closes := closes + [closing.value];
      }
    }
    assert m[..|m|] == m;
    SamplesMatch(m);
    if opens == [] || closes == [] {
      return None;
    }
    BestIsAtLeastConsensus(opens);
    BestIsAtLeastConsensus(closes);
    r := Some(SeriesMatch(ResultChar(homeScore, awayScore), Consensus(opens), Best(opens), Consensus(closes),
      Best(closes), |opens|, |closes|));
  }

  // ---- cells and quotes, by position ----

  /** The cell holds the number of its token when that is above one, and nothing otherwise. */
  ghost predicate CellSays(v: Option<real>, number: string -> Option<real>, token: string) {
    && (v.Some? <==> number(token).Some? && number(token).value > 1.0)
    && (v.Some? ==> v == number(token))
  }

  /** Row `b` of a parsed text is its `b`-th line that is not blank; beyond them rows are empty. */
  lemma TextByPosition(number: string -> Option<real>, m: seq<Row>, lines: seq<Line>, k: nat, c: nat)
    requires ReadsText(m, number, lines) && c < 216
    ensures |m| == 32
    ensures var b := |set i: nat | i < k && i < |lines| && !lines[i].blank|;
            && (k < |lines| && !lines[k].blank && b < 32 ==>
                  if c < |lines[k].tokens| then CellSays(m[b][c], number, lines[k].tokens[c]) else m[b][c].None?)
            && (k >= |lines| ==> forall r :: b <= r < 32 ==> m[r][c].None?)
  {
    hide Cell;
    var at := if k < |lines| then k else |lines|;
    FilterCount(NotBlank(), lines[..at]);
    assert Positions(NotBlank(), lines[..at]) == set i: nat | i < k && i < |lines| && !lines[i].blank;
    var b := |set i: nat | i < k && i < |lines| && !lines[i].blank|;
    if k < |lines| && !lines[k].blank && b < 32 {
      FilterAt(NotBlank(), lines, k);
      assert m[b][c] == TextCell(number, lines, b, c);
      if c < |lines[k].tokens| { CellByNumber(number, lines[k].tokens[c]); }
    } else if k >= |lines| {
      assert lines[..at] == lines;
      forall r | b <= r < 32 ensures m[r][c].None? {
        assert m[r][c] == TextCell(number, lines, r, c);
      }
    }
  }

  lemma CellByNumber(number: string -> Option<real>, token: string)
    ensures CellSays(Cell(number, token), number, token)
  {
  }

  /** In the wide CSV the cell of book `b` and column `c` is the value 5 + 216 b + c. */
  lemma CsvByPosition(number: string -> Option<real>, m: seq<Row>, values: seq<string>, b: nat, c: nat)
    requires ReadsCsv(m, number, values) && b < 32 && c < 216
    ensures |m| == 32
    ensures var at := 5 + 216 * b + c;
            if at < |values| then CellSays(m[b][c], number, values[at]) else m[b][c].None?
  {
    assert m[b][c] == CsvCell(number, values, b, c);
    if 5 + 216 * b + c < |values| { CellByNumber(number, values[5 + 216 * b + c]); }
  }

  /** The book quotes `t` in this hour: its home, draw and away price lie 72 cells apart. */
  ghost predicate QuotesAt(row: Row, hour: int, t: Triple) {
    && 0 <= hour < 72
    && row[hour] == Some(t.home) && row[hour + 72] == Some(t.draw) && row[hour + 144] == Some(t.away)
  }

  ghost predicate SilentAt(row: Row, hour: int) { forall t :: !QuotesAt(row, hour, t) }

  ghost predicate OpensAt(row: Row, t: Triple) {
    exists h :: QuotesAt(row, h, t) && forall k :: 0 <= k < h ==> SilentAt(row, k)
  }

  ghost predicate ClosesAt(row: Row, t: Triple) {
    exists h :: QuotesAt(row, h, t) && forall k :: h < k < 72 ==> SilentAt(row, k)
  }

  ghost predicate Silent(row: Row) { forall h :: 0 <= h < 72 ==> SilentAt(row, h) }

  lemma HourMeans(row: Row, hour: int)
    requires 0 <= hour < 72
    ensures Coherent(row, hour) <==> !SilentAt(row, hour)
    ensures Coherent(row, hour) ==> QuotesAt(row, hour, TripleAt(row, hour))
  {
    if Coherent(row, hour) {
      assert QuotesAt(row, hour, TripleAt(row, hour));
    }
  }

  lemma BookByHours(row: Row)
    ensures Opening(row).Some? ==> OpensAt(row, Opening(row).value) && !Silent(row)
    ensures Closing(row).Some? ==> ClosesAt(row, Closing(row).value)
    ensures Opening(row).None? ==> Silent(row)
    ensures Opening(row).Some? == Closing(row).Some?
  {
    QuoteMeansBoth(row);
    forall h | 0 <= h < 72
      ensures Coherent(row, h) <==> !SilentAt(row, h)
      ensures Coherent(row, h) ==> QuotesAt(row, h, TripleAt(row, h))
    {
      HourMeans(row, h);
    }
    hide Coherent, TripleAt, SilentAt, QuotesAt;
    if Opening(row).Some? {
      var h, l := FirstHour(row, 0).value, LastHour(row, 72).value;
      assert QuotesAt(row, h, Opening(row).value) && QuotesAt(row, l, Closing(row).value);
    }
  }

  /** Book `books[k]` opens at `opens[k]` and closes at `closes[k]`; the books left out never quote. */
  ghost predicate SampledFrom(m: seq<Row>, books: seq<nat>, opens: seq<Triple>, closes: seq<Triple>) {
    && |books| == |opens| == |closes|
    && (forall k :: 0 <= k < |books| ==>
          books[k] < |m| && OpensAt(m[books[k]], opens[k]) && ClosesAt(m[books[k]], closes[k]))
    && (forall k, l :: 0 <= k < l < |books| ==> books[k] < books[l])
    && (forall b :: 0 <= b < |m| && b !in books ==> Silent(m[b]))
  }

  lemma OneMoreBook(m: seq<Row>, row: Row, books: seq<nat>, opens: seq<Triple>, closes: seq<Triple>)
    requires SampledFrom(m, books, opens, closes)
    ensures Silent(row) ==> SampledFrom(m + [row], books, opens, closes)
    ensures forall o, c :: OpensAt(row, o) && ClosesAt(row, c) ==>
              SampledFrom(m + [row], books + [|m|], opens + [o], closes + [c])
  {
    hide OpensAt, ClosesAt, Silent;
    var m' := m + [row];
    assert forall b :: 0 <= b < |m| ==> m'[b] == m[b];
    forall o, c | OpensAt(row, o) && ClosesAt(row, c)
      ensures SampledFrom(m', books + [|m|], opens + [o], closes + [c])
    {
      var books' := books + [|m|];
      assert forall b :: b in books ==> b in books';
      assert books'[|books|] == |m| && |m| in books';
    }
  }

  /** What a match is derived from: the quoting books' first and last quotes, in book order. */
  lemma {:induction false} SamplesByBook(m: seq<Row>) returns (books: seq<nat>)
    requires Priced(m)
    ensures SampledFrom(m, books, Opens(m), Closes(m))
  {
    if m == [] {
      books := [];
    } else {
      var n := |m| - 1;
      books := SamplesByBook(m[..n]);
      BookByHours(m[n]);
      OneMoreBook(m[..n], m[n], books, Opens(m[..n]), Closes(m[..n]));
      hide SampledFrom, OpensAt, ClosesAt, Silent, Opening, Closing;
      assert m[..n] + [m[n]] == m;
      if Opening(m[n]).Some? {
        books := books + [n];
      }
    }
  }

  /** The best price of each outcome is the largest in the sample, and the consensus is its mean. */
  lemma AggregatesExactly(ts: seq<Triple>)
    requires ts != []
    ensures forall t :: t in ts ==> t.home <= Best(ts).home && t.draw <= Best(ts).draw && t.away <= Best(ts).away
    ensures (exists t :: t in ts && t.home == Best(ts).home) && (exists t :: t in ts && t.draw == Best(ts).draw)
            && exists t :: t in ts && t.away == Best(ts).away
    ensures var c, n := Consensus(ts), |ts| as real;
            && Times(c.home, n) == Sum((t: Triple) => t.home, ts)
            && Times(c.draw, n) == Sum((t: Triple) => t.draw, ts)
            && Times(c.away, n) == Sum((t: Triple) => t.away, ts)
  {
    MeanTimesCount(Home, ts);
    MeanTimesCount(Draw, ts);
    MeanTimesCount(Away, ts);
    SumSame(Home, (t: Triple) => t.home, ts);
    SumSame(Draw, (t: Triple) => t.draw, ts);
    SumSame(Away, (t: Triple) => t.away, ts);
    hide Times, MeanOf;
    var h :| h in ts && Home(h) == MaxOf(Home, ts);
    var d :| d in ts && Draw(d) == MaxOf(Draw, ts);
    var a :| a in ts && Away(a) == MaxOf(Away, ts);
    forall t | t in ts
      ensures t.home <= Best(ts).home && t.draw <= Best(ts).draw && t.away <= Best(ts).away
    {
      assert Home(t) <= MaxOf(Home, ts) && Draw(t) <= MaxOf(Draw, ts) && Away(t) <= MaxOf(Away, ts);
    }
  }

  lemma ResultExactly(home: int, away: int)
    ensures ResultChar(home, away) == 'H' <==> home > away
    ensures ResultChar(home, away) == 'D' <==> home == away
    ensures ResultChar(home, away) == 'A' <==> home < away
  {
  }
}
