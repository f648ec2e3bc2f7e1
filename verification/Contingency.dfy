/** Contingency tables (propertyCountByProperty) and the year series drawn from them. */
module Contingency {
  import opened JsValues
  import opened Features
  import opened Counts

  /** Counts of the values of one column, grouped by another. */
  type Table = map<string, map<string, nat>>

  /** `year` is `new Date(v).getFullYear()`, `None` for NaN; it is absent when dates
      are not to be reduced to years. */
  datatype Grouping = Grouping(js: Runtime, key: string, key2: string, year: Option<Value -> Option<int>>) {

    function GroupOf(d: Feature): string {
      var y := if year.Some? then year.value(d.Get(key2)) else None;
      if y.Some? && y.value != 0 then js.Text(Num(y.value as real)) else js.Text(d.Get(key2))
    }

    predicate Has(d: Feature) {
      key in d.properties
    }

    function ValueOf(d: Feature): string {
      js.Text(d.Get(key))
    }
  }

  function Bump(t: Table, a: string, b: string): Table {
    if a in t && b in t[a] then t[a := t[a][b := t[a][b] + 1]]
    else t[a := (if a in t then t[a] else map[])[b := 1]]
  }

  function Tabulate(g: Grouping, rows: seq<Feature>): Table {
    if rows == [] then map[]
    else
      var t, d := Tabulate(g, rows[..|rows| - 1]), rows[|rows| - 1];
      if g.Has(d) then Bump(t, g.GroupOf(d), g.ValueOf(d)) else t
  }

  /** propertyCountByProperty; asking for one column against itself gives nothing. */
  method PropertyCountByProperty(g: Grouping, data: seq<Feature>) returns (t: Option<Table>)
    ensures t == if g.key == "" || g.key2 == "" || g.key == g.key2 then None else Some(Tabulate(g, data))
  {
    if g.key == "" || g.key2 == "" || g.key == g.key2 {
      return None;
    }
    var sub: Table := map[];
    for i := 0 to |data|
      invariant sub == Tabulate(g, data[..i])
    {
      var d := data[i];
      var k2 := g.GroupOf(d);
      assert data[..i + 1][..i] == data[..i];
      if g.Has(d) {
        var v := g.ValueOf(d);
        if k2 in sub && v in sub[k2] {
          sub := sub[k2 := sub[k2][v := sub[k2][v] + 1]];
        } else {
          sub := sub[k2 := (if k2 in sub then sub[k2] else map[])[v := 1]];
        }
      }
    }
    assert data[..|data|] == data;
    return Some(sub);
  }

  // ---------------------------------------------------------------- sums over objects

  ghost function Total(m: map<string, nat>): nat
    decreases |m|
  {
    if m == map[] then 0
    else
      var k :| k in m;
      m[k] + Total(m - {k})
  }

  lemma {:induction false} TotalRemove(m: map<string, nat>, k: string)
    requires k in m
    ensures Total(m) == m[k] + Total(m - {k})
    decreases |m|
  {
    var first :| first in m && Total(m) == m[first] + Total(m - {first});
    if first != k {
      TotalRemove(m - {first}, k);
      TotalRemove(m - {k}, first);
      assert m - {first} - {k} == m - {k} - {first};
    }
  }

  lemma TotalUpdate(m: map<string, nat>, k: string, n: nat)
    ensures Total(m[k := n]) == Total(m - {k}) + n
    ensures Total(m) == Total(m - {k}) + if k in m then m[k] else 0
  {
    TotalRemove(m[k := n], k);
    assert m[k := n] - {k} == m - {k};
    if k in m {
      TotalRemove(m, k);
    } else {
      assert m - {k} == m;
    }
  }

  // ---------------------------------------------------------------- what the table counts

  /** Rows that have the counted column and satisfy `p`. */
  function CountRows(g: Grouping, rows: seq<Feature>, p: (string, string) -> bool): nat {
    if rows == [] then 0
    else
      var d := rows[|rows| - 1];
      CountRows(g, rows[..|rows| - 1], p) + if g.Has(d) && p(g.GroupOf(d), g.ValueOf(d)) then 1 else 0
  }

  function At(a: string, b: string): (string, string) -> bool {
    (x, y) => x == a && y == b
  }

  function InColumn(b: string): (string, string) -> bool {
    (x, y) => y == b
  }

  function InRow(a: string): (string, string) -> bool {
    (x, y) => x == a
  }

  /** The counts of one value across the groups. */
  function ColumnOf(t: Table, b: string): map<string, nat> {
    map a | a in t && b in t[a] :: t[a][b]
  }

  ghost function RowTotals(t: Table): map<string, nat> {
    map a | a in t :: Total(t[a])
  }

  /** Each cell is the exact number of matching rows, and a cell is absent exactly
      when there are none. */
  lemma {:induction false} CellExact(g: Grouping, rows: seq<Feature>, a: string, b: string)
    ensures var t := Tabulate(g, rows);
            var n := CountRows(g, rows, At(a, b));
            && (a in t && b in t[a] <==> n > 0)
            && (a in t && b in t[a] ==> t[a][b] == n)
  {
    if rows != [] {
      CellExact(g, rows[..|rows| - 1], a, b);
    }
  }

  /** The row has the column, prints `b` there, and belongs to group `a`: by the year of its
      date if that is one other than 0, and else by its value of `key2` as text. */
  predicate BelongsTo(g: Grouping, d: Feature, a: string, b: string) {
    && g.key in d.properties && g.js.Text(d.properties[g.key]) == b
    && if HasYear(g, d) then g.js.numberText(YearOf(g, d) as real) == a else g.js.Text(d.Get(g.key2)) == a
  }

  function InCell(g: Grouping, a: string, b: string): Feature -> bool {
    (d: Feature) => BelongsTo(g, d, a, b)
  }

  lemma CellOf(g: Grouping, d: Feature, a: string, b: string)
    ensures BelongsTo(g, d, a, b) <==> g.Has(d) && g.GroupOf(d) == a && g.ValueOf(d) == b
  {
    if g.Has(d) {
      assert g.ValueOf(d) == g.js.Text(d.properties[g.key]);
    }
    assert g.GroupOf(d) == if HasYear(g, d) then g.js.numberText(YearOf(g, d) as real) else g.js.Text(d.Get(g.key2));
  }

  predicate HasYear(g: Grouping, d: Feature) {
    && g.year.Some? && g.year.value(d.Get(g.key2)).Some?
    && g.year.value(d.Get(g.key2)).value != 0
  }

  function YearOf(g: Grouping, d: Feature): int
    requires HasYear(g, d)
  {
    g.year.value(d.Get(g.key2)).value
  }

  lemma {:induction false} CellRows(g: Grouping, rows: seq<Feature>, a: string, b: string)
    ensures CountRows(g, rows, At(a, b)) == |Where(InCell(g, a, b), rows)|
  {
    if rows != [] {
      var init, last := rows[..|rows| - 1], [rows[|rows| - 1]];
      CellRows(g, init, a, b);
      assert rows == init + last;
      var d := last[0];
      CellOf(g, d, a, b);
      assert Where(InCell(g, a, b), last) == if InCell(g, a, b)(d) then [d] else [];
      WhereConcat(InCell(g, a, b), init, last);
    }
  }

  /** What a cell counts, told from the rows: dates by their year. */
  lemma CellMeaning(g: Grouping, rows: seq<Feature>, a: string, b: string)
    ensures var t, n := Tabulate(g, rows), |Where(InCell(g, a, b), rows)|;
            && (a in t && b in t[a] <==> n > 0)
            && (a in t && b in t[a] ==> t[a][b] == n)
  {
    CellExact(g, rows, a, b);
    CellRows(g, rows, a, b);
  }

  function WithYear(g: Grouping, y: int): Feature -> bool {
    (d: Feature) => g.key in d.properties && HasYear(g, d) && YearOf(g, d) == y
  }

  /** A group named like a year holds all rows of that year, and only those if and only if
      no other year and no undated value prints alike. */
  lemma YearGroup(g: Grouping, rows: seq<Feature>, y: int)
    requires y != 0
    ensures var t, a := Tabulate(g, rows), g.js.numberText(y as real);
            var n, total := |Where(WithYear(g, y), rows)|, if a in t then Total(t[a]) else 0;
            && n <= total
            && (n == total <==> forall d <- rows | InGroup(g, d, a) :: WithYear(g, y)(d))
  {
    RowSum(g, rows, g.js.numberText(y as real));
    YearRows(g, rows, y);
  }

  /** The row has the column and belongs to the group. */
  predicate InGroup(g: Grouping, d: Feature, a: string) {
    && g.key in d.properties
    && if HasYear(g, d) then g.js.numberText(YearOf(g, d) as real) == a else g.js.Text(d.Get(g.key2)) == a
  }

  lemma GroupMeans(g: Grouping, d: Feature, a: string)
    ensures InGroup(g, d, a) <==> g.Has(d) && g.GroupOf(d) == a
  {
    assert g.GroupOf(d) == if HasYear(g, d) then g.js.numberText(YearOf(g, d) as real) else g.js.Text(d.Get(g.key2));
  }

  lemma YearInGroup(g: Grouping, d: Feature, y: int)
    requires WithYear(g, y)(d) && y != 0
    ensures InGroup(g, d, g.js.numberText(y as real))
  {
  }

  lemma {:induction false} YearRows(g: Grouping, rows: seq<Feature>, y: int)
    requires y != 0
    ensures var a := g.js.numberText(y as real);
            var n, all := |Where(WithYear(g, y), rows)|, CountRows(g, rows, InRow(a));
            && n <= all
            && (n == all <==> forall d <- rows | InGroup(g, d, a) :: WithYear(g, y)(d))
  {
    if rows != [] {
      var init, d := rows[..|rows| - 1], rows[|rows| - 1];
      YearRows(g, init, y);
      assert rows == init + [d];
      WhereConcat(WithYear(g, y), init, [d]);
      GroupMeans(g, d, g.js.numberText(y as real));
      assert Where(WithYear(g, y), [d]) == if WithYear(g, y)(d) then [d] else [];
      if WithYear(g, y)(d) {
        YearInGroup(g, d, y);
      }
    }
  }

  lemma BumpColumn(t: Table, a: string, v: string, b: string)
    ensures Total(ColumnOf(Bump(t, a, v), b)) == Total(ColumnOf(t, b)) + if v == b then 1 else 0
  {
    var col, col' := ColumnOf(t, b), ColumnOf(Bump(t, a, v), b);
    if v == b {
      var n := if a in col then col[a] + 1 else 1;
      assert col' == col[a := n];
      TotalUpdate(col, a, n);
    } else {
      assert col' == col;
    }
  }

  lemma BumpRow(t: Table, a: string, b: string)
    ensures Total(RowTotals(Bump(t, a, b))) == Total(RowTotals(t)) + 1
  {
    var row := if a in t then t[a] else map[];
    var row' := row[b := if b in row then row[b] + 1 else 1];
    TotalUpdate(row, b, row'[b]);
    assert Bump(t, a, b) == t[a := row'];
    RowTotalsUpdate(t, a, row');
    TotalUpdate(RowTotals(t), a, Total(row'));
  }

  lemma RowTotalsUpdate(t: Table, a: string, row: map<string, nat>)
    ensures RowTotals(t[a := row]) == RowTotals(t)[a := Total(row)]
  {
  }

  lemma {:induction false} ColumnSum(g: Grouping, rows: seq<Feature>, b: string)
    ensures Total(ColumnOf(Tabulate(g, rows), b)) == CountRows(g, rows, InColumn(b))
  {
    if rows != [] {
      var init, d := rows[..|rows| - 1], rows[|rows| - 1];
      ColumnSum(g, init, b);
      if g.Has(d) {
        BumpColumn(Tabulate(g, init), g.GroupOf(d), g.ValueOf(d), b);
      }
    }
  }

  lemma {:induction false} RowSum(g: Grouping, rows: seq<Feature>, a: string)
    ensures var t := Tabulate(g, rows);
            (if a in t then Total(t[a]) else 0) == CountRows(g, rows, InRow(a))
  {
    if rows != [] {
      var init, d := rows[..|rows| - 1], rows[|rows| - 1];
      RowSum(g, init, a);
      if g.Has(d) && g.GroupOf(d) == a {
        var t, b := Tabulate(g, init), g.ValueOf(d);
        var row := if a in t then t[a] else map[];
        TotalUpdate(row, b, if b in row then row[b] + 1 else 1);
      }
    }
  }

  /** All cells together count every row that has the column exactly once. */
  lemma {:induction false} GrandTotal(g: Grouping, rows: seq<Feature>)
    ensures Total(RowTotals(Tabulate(g, rows))) == |ColumnValues(rows, g.key)|
  {
    if rows != [] {
      var init, d := rows[..|rows| - 1], rows[|rows| - 1];
      GrandTotal(g, init);
      ColumnValuesLast(rows, g.key);
      if g.Has(d) {
        BumpRow(Tabulate(g, init), g.GroupOf(d), g.ValueOf(d));
      }
    }
  }

  lemma {:induction false} TextCount(g: Grouping, rows: seq<Feature>, v: Value)
    ensures var values := ColumnValues(rows, g.key);
            var n := CountRows(g, rows, InColumn(g.js.Text(v)));
            && multiset(values)[v] <= n
            && (multiset(values)[v] == n <==> forall u <- values | g.js.Text(u) == g.js.Text(v) :: u == v)
  {
    if rows != [] {
      TextCount(g, rows[..|rows| - 1], v);
      ColumnValuesLast(rows, g.key);
    }
  }

  /** Adding a value's counts up over all groups gives propertyCount's bar for it, if
      and only if no other value of the column prints the same. */
  lemma TableAgreesWithCount(g: Grouping, rows: seq<Feature>, v: Value)
    requires v in ColumnValues(rows, g.key)
    ensures var values := ColumnValues(rows, g.key);
            Bar(v, Total(ColumnOf(Tabulate(g, rows), g.js.Text(v)))) in Tally(values)
            <==> forall u <- values | g.js.Text(u) == g.js.Text(v) :: u == v
  {
    ColumnSum(g, rows, g.js.Text(v));
    TextCount(g, rows, v);
    TallyMembers(ColumnValues(rows, g.key));
  }

  // ---------------------------------------------------------------- the year series

  datatype Point = Point(x: string, y: nat)

  const MALE := "Male"
  const FEMALE := "Female"

  /** A group is plotted if it has a name and both counts. */
  predicate Both(t: Table, year: string) {
    year != "" && year in t && MALE in t[year] && t[year][MALE] != 0 && FEMALE in t[year] && t[year][FEMALE] != 0
  }

  function BothYears(t: Table, years: seq<string>): seq<string> {
    if years == [] then []
    else if Both(t, years[0]) then [years[0]] + BothYears(t, years[1..])
    else BothYears(t, years[1..])
  }

  function Count(t: Table, year: string, kind: string): nat {
    if year in t && kind in t[year] then t[year][kind] else 0
  }

  /** The points of the given years, at the sum of the counts of `kinds`. */
  function Series(t: Table, years: seq<string>, kinds: seq<string>): seq<Point> {
    seq(|years|, i requires 0 <= i < |years| => Point(years[i], SumOf(t, years[i], kinds)))
  }

  function SumOf(t: Table, year: string, kinds: seq<string>): nat {
    if kinds == [] then 0 else Count(t, year, kinds[0]) + SumOf(t, year, kinds[1..])
  }

  /** arrayOfYearAndProperty: `years` is `Object.keys` of the table. */
  method ArrayOfYearAndProperty(t: Table, years: seq<string>)
    returns (male: seq<Point>, female: seq<Point>, both: seq<Point>)
    ensures Drawn(t, if |years| > 1 then BothYears(t, years) else [], male, female, both)
  {
    male, female, both := [], [], [];
    if |years| <= 1 {
      return;
    }
    for i := 0 to |years|
      invariant Drawn(t, BothYears(t, years[..i]), male, female, both)
    {
      var y := years[i];
      BothYearsLast(t, years[..i], y);
      assert years[..i + 1] == years[..i] + [y];
      if Both(t, y) {
        male, female, both := AddYear(t, y, male, female, both, BothYears(t, years[..i]));
      }
    }
    assert years[..|years|] == years;
  }

  /** The three pushes of one year. */
  method AddYear(t: Table, y: string, male: seq<Point>, female: seq<Point>, both: seq<Point>, ghost shown: seq<string>)
    returns (male': seq<Point>, female': seq<Point>, both': seq<Point>)
    requires Both(t, y) && Drawn(t, shown, male, female, both)
    ensures Drawn(t, shown + [y], male', female', both')
  {
    SumsOfKinds(t, y);
    male' := male + [Point(y, t[y][MALE])];
    female' := female + [Point(y, t[y][FEMALE])];
    both' := both + [Point(y, t[y][MALE] + t[y][FEMALE])];
  }

  lemma {:induction false} BothYearsLast(t: Table, years: seq<string>, y: string)
    ensures BothYears(t, years + [y]) == BothYears(t, years) + if Both(t, y) then [y] else []
  {
    if years != [] {
      assert (years + [y])[0] == years[0] && (years + [y])[1..] == years[1..] + [y];
      BothYearsLast(t, years[1..], y);
    }
  }

  /** The three series over the years shown. */
  predicate Drawn(t: Table, shown: seq<string>, male: seq<Point>, female: seq<Point>, both: seq<Point>) {
    && male == Series(t, shown, [MALE])
    && female == Series(t, shown, [FEMALE])
    && both == Series(t, shown, [MALE, FEMALE])
  }

  lemma SumsOfKinds(t: Table, y: string)
    ensures SumOf(t, y, [MALE]) == Count(t, y, MALE)
    ensures SumOf(t, y, [FEMALE]) == Count(t, y, FEMALE)
    ensures SumOf(t, y, [MALE, FEMALE]) == Count(t, y, MALE) + Count(t, y, FEMALE)
  {
    assert [MALE, FEMALE][1..] == [FEMALE];
  }

  function Heights(points: seq<Point>): nat {
    if points == [] then 0 else points[0].y + Heights(points[1..])
  }

  function RowsInYears(g: Grouping, rows: seq<Feature>, years: seq<string>): nat {
    if years == [] then 0
    else
      CountRows(g, rows, At(years[0], MALE)) + CountRows(g, rows, At(years[0], FEMALE))
      + RowsInYears(g, rows, years[1..])
  }

  /** The third series totals the male and female rows of the years shown. */
  lemma {:induction false} YearTotals(g: Grouping, rows: seq<Feature>, years: seq<string>)
    ensures Heights(Series(Tabulate(g, rows), years, [MALE, FEMALE])) == RowsInYears(g, rows, years)
  {
    if years != [] {
      var t := Tabulate(g, rows);
      YearTotals(g, rows, years[1..]);
      CellExact(g, rows, years[0], MALE);
      CellExact(g, rows, years[0], FEMALE);
      SumsOfKinds(t, years[0]);
      assert Series(t, years, [MALE, FEMALE])[1..] == Series(t, years[1..], [MALE, FEMALE]);
    }
  }

  /** Which groups are plotted: those with a name and a row of either sex. */
  lemma {:induction false} YearsShown(g: Grouping, rows: seq<Feature>, years: seq<string>, y: string)
    ensures y in BothYears(Tabulate(g, rows), years)
            <==> y in years && y != "" && (exists d <- rows :: InCell(g, y, "Male")(d))
                 && (exists d <- rows :: InCell(g, y, "Female")(d))
  {
    if years != [] {
      YearsShown(g, rows, years[1..], y);
      assert years == [years[0]] + years[1..];
      CellMeaning(g, rows, y, "Male");
      CellMeaning(g, rows, y, "Female");
      SomeRow(InCell(g, y, "Male"), rows);
      SomeRow(InCell(g, y, "Female"), rows);
    }
  }

  lemma SomeRow(p: Feature -> bool, rows: seq<Feature>)
    ensures |Where(p, rows)| > 0 <==> exists d <- rows :: p(d)
  {
    WhereMembers(p, rows);
    if |Where(p, rows)| > 0 {
      assert Where(p, rows)[0] in Where(p, rows);
    }
  }

  /** What the three series plot: for each group the numbers of its male rows, of its female
      rows, and of both. */
  lemma SeriesMeaning(g: Grouping, rows: seq<Feature>, years: seq<string>, male: seq<Point>, female: seq<Point>,
                      both: seq<Point>, k: nat)
    requires Drawn(Tabulate(g, rows), years, male, female, both) && k < |years|
    ensures |male| == |female| == |both| == |years|
    ensures male[k] == Point(years[k], |Where(InCell(g, years[k], "Male"), rows)|)
    ensures female[k] == Point(years[k], |Where(InCell(g, years[k], "Female"), rows)|)
    ensures both[k] == Point(years[k], male[k].y + female[k].y)
  {
    CellMeaning(g, rows, years[k], "Male");
    CellMeaning(g, rows, years[k], "Female");
    SumsOfKinds(Tabulate(g, rows), years[k]);
  }

  /** A text of four digits. */
  predicate FourDigits(s: string) {
    |s| == 4 && forall c <- s :: '0' <= c <= '9'
  }

  function Digit(c: char): nat
    requires '0' <= c <= '9'
  {
    c as int - '0' as int
  }

  function YearNumber(s: string): nat
    requires FourDigits(s)
  {
    assert s[0] in s && s[1] in s && s[2] in s && s[3] in s;
    1000 * Digit(s[0]) + 100 * Digit(s[1]) + 10 * Digit(s[2]) + Digit(s[3])
  }

  /** Integer-like keys of an object enumerate in ascending order
      (section 10.1.11.1 of ECMA-262). */
  predicate EnumeratedYears(years: seq<string>) {
    && (forall y <- years :: FourDigits(y))
    && (forall i, j | 0 <= i < j < |years| :: YearNumber(years[i]) < YearNumber(years[j]))
  }

  function InsertByDate(y: string, s: seq<string>): seq<string>
    requires FourDigits(y) && forall z <- s :: FourDigits(z)
    ensures forall z <- InsertByDate(y, s) :: FourDigits(z)
  {
    if s == [] || YearNumber(y) <= YearNumber(s[0]) then [y] + s else [s[0]] + InsertByDate(y, s[1..])
  }

  /** The sort plotByPropertyByDate applies to the x values alone. */
  function SortByDate(s: seq<string>): seq<string>
    requires forall y <- s :: FourDigits(y)
    ensures forall y <- SortByDate(s) :: FourDigits(y)
  {
    if s == [] then [] else InsertByDate(s[0], SortByDate(s[1..]))
  }

  lemma {:induction false} SortedByDate(s: seq<string>)
    requires EnumeratedYears(s)
    ensures SortByDate(s) == s
  {
    if s != [] {
      SortedByDate(s[1..]);
    }
  }

  lemma {:induction false} BothYearsEnumerated(t: Table, years: seq<string>)
    requires EnumeratedYears(years)
    ensures EnumeratedYears(BothYears(t, years))
    ensures forall y <- BothYears(t, years) :: y in years
  {
    if years != [] {
      BothYearsEnumerated(t, years[1..]);
      assert years == [years[0]] + years[1..];
      forall y | y in BothYears(t, years[1..])
        ensures YearNumber(years[0]) < YearNumber(y)
      {
        var j :| 0 <= j < |years[1..]| && years[1..][j] == y;
        assert years[j + 1] == y;
      }
    }
  }

  /** Sorting the x values without the y values keeps every pair together, because
      the years already come in order. */
  lemma SortKeepsPairs(t: Table, years: seq<string>)
    requires EnumeratedYears(years)
    ensures forall y <- BothYears(t, years) :: FourDigits(y)
    ensures SortByDate(BothYears(t, years)) == BothYears(t, years)
  {
    BothYearsEnumerated(t, years);
    SortedByDate(BothYears(t, years));
  }

  lemma {:induction false} InsertByDatePermutes(y: string, s: seq<string>)
    requires FourDigits(y) && forall z <- s :: FourDigits(z)
    ensures multiset(InsertByDate(y, s)) == multiset(s) + multiset{y}
  {
    if s != [] && YearNumber(y) > YearNumber(s[0]) {
      InsertByDatePermutes(y, s[1..]);
      assert s == [s[0]] + s[1..];
    }
  }

  predicate ByDate(s: seq<string>)
    requires forall y <- s :: FourDigits(y)
  {
    forall i, j | 0 <= i < j < |s| :: YearNumber(s[i]) <= YearNumber(s[j])
  }

  lemma {:induction false} InsertByDateOrdered(y: string, s: seq<string>)
    requires FourDigits(y) && (forall z <- s :: FourDigits(z)) && ByDate(s)
    ensures ByDate(InsertByDate(y, s))
  {
    if s == [] || YearNumber(y) <= YearNumber(s[0]) {
      forall z | z in s
        ensures YearNumber(y) <= YearNumber(z)
      {
        var i :| 0 <= i < |s| && s[i] == z;
      }
      EarliestFirst(y, s);
    } else {
      InsertByDateOrdered(y, s[1..]);
      InsertByDatePermutes(y, s[1..]);
      var rest := InsertByDate(y, s[1..]);
      forall z | z in rest
        ensures YearNumber(s[0]) <= YearNumber(z)
      {
        assert z in multiset(rest);
      }
      EarliestFirst(s[0], rest);
    }
  }

  lemma EarliestFirst(y: string, s: seq<string>)
    requires FourDigits(y) && (forall z <- s :: FourDigits(z)) && ByDate(s)
    requires forall z <- s :: YearNumber(y) <= YearNumber(z)
    ensures (forall z <- [y] + s :: FourDigits(z)) && ByDate([y] + s)
  {
  }

  /** The sort of the x values is one: it reorders any four-digit years by date. */
  lemma {:induction false} SortByDateSorts(s: seq<string>)
    requires forall y <- s :: FourDigits(y)
    ensures multiset(SortByDate(s)) == multiset(s) && ByDate(SortByDate(s))
  {
    if s != [] {
      SortByDateSorts(s[1..]);
      InsertByDatePermutes(s[0], SortByDate(s[1..]));
      InsertByDateOrdered(s[0], SortByDate(s[1..]));
      assert s == [s[0]] + s[1..];
    }
  }

  /** Four-digit years are in the order of their texts. */
  lemma YearOrder(a: string, b: string)
    requires FourDigits(a) && FourDigits(b)
    ensures YearNumber(a) < YearNumber(b) <==> Before(Str(a), Str(b))
  {
    assert a[0] in a && a[1] in a && a[2] in a && a[3] in a;
    assert b[0] in b && b[1] in b && b[2] in b && b[3] in b;
    TextLessMeaning(a, b);
    LessStep(a, b);
    LessStep(a[1..], b[1..]);
    LessStep(a[2..], b[2..]);
    LessStep(a[3..], b[3..]);
    assert a[1..][1..] == a[2..] && b[1..][1..] == b[2..];
    assert a[2..][1..] == a[3..] && b[2..][1..] == b[3..];
    assert a[3..][1..] == "" && b[3..][1..] == "";
    DigitOrder(Digit(a[0]), Digit(a[1]), Digit(a[2]), Digit(a[3]), Digit(b[0]), Digit(b[1]), Digit(b[2]), Digit(b[3]));
  }

  lemma LessStep(a: string, b: string)
    requires a != "" && b != ""
    ensures TextLess(a, b) <==> a[0] < b[0] || (a[0] == b[0] && TextLess(a[1..], b[1..]))
  {
  }

  lemma DigitOrder(a: nat, b: nat, c: nat, d: nat, a': nat, b': nat, c': nat, d': nat)
    requires a < 10 && b < 10 && c < 10 && d < 10 && a' < 10 && b' < 10 && c' < 10 && d' < 10
    ensures 1000 * a + 100 * b + 10 * c + d < 1000 * a' + 100 * b' + 10 * c' + d'
            <==> a < a' || (a == a' && (b < b' || (b == b' && (c < c' || (c == c' && d < d')))))
  {
  }
}
