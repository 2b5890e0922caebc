/**
 * The schedule-table row loop shared by both versions of `parse_bin_data`:
 * the header row is skipped, every row of exactly four cells becomes a
 * collection record, the other rows are dropped, and order is kept.
 */
module Schedule {
  import opened Wrappers
  import opened Text
  import opened Portal

  /** The decimal rendering of `n`, without padding. */
  function Digits(n: nat): (r: string)
    ensures |r| >= 1
    ensures forall i :: 0 <= i < |r| ==> '0' <= r[i] <= '9'
  {
    if n < 10 then [('0' as int + n) as char] else Digits(n / 10) + Digits(n % 10)
  }

  /** `%m` / `%d`: two digits, zero padded. */
  function Pad2(n: nat): (r: string)
    ensures |r| >= 2
  {
    if n < 10 then "0" + Digits(n) else Digits(n)
  }

  /** `date.strftime("%Y-%m-%d")`; never the empty string. */
  function IsoDate(d: Date): (r: string)
    ensures |r| >= 7
  {
    Digits(d.year) + "-" + Pad2(d.month) + "-" + Pad2(d.day)
  }

  /** `find_all('tr')[1:]`: the rows after the header; none when there is no row at all. */
  function AfterHeader(rows: seq<seq<string>>): (body: seq<seq<string>>)
    ensures rows != [] ==> rows == [rows[0]] + body
    ensures rows == [] ==> body == []
  {
    if rows == [] then [] else rows[1..]
  }

  /**
   * The record for a four-cell row. `parseDate` stands for `strptime` with the
   * format "%A, %d %B %Y". The ISO date is empty exactly when that parse fails.
   */
  function Record(row: seq<string>, parseDate: string -> Option<Date>): (b: BinCollection)
    requires |row| == 4
    ensures b.nextCollectionIso == "" <==> parseDate(b.nextCollectionRaw).None?
  {
    var raw := Strip(row[3], Whitespace);
    var iso := match parseDate(raw)
      case Some(d) => IsoDate(d)
      case None => "";
    BinCollection(Strip(row[0], Whitespace), raw, iso)
  }

  /**
   * The ISO date of a record is empty exactly when the stripped raw text fails
   * to parse, and is otherwise the rendering of the parsed date: it is never
   * made up, and a bad date is not an error.
   */
  lemma RecordDate(row: seq<string>, parseDate: string -> Option<Date>)
    requires |row| == 4
    ensures var b := Record(row, parseDate);
            && b.binType == Strip(row[0], Whitespace) && b.nextCollectionRaw == Strip(row[3], Whitespace)
            && (b.nextCollectionIso == "" <==> parseDate(b.nextCollectionRaw).None?)
            && (parseDate(b.nextCollectionRaw).Some? ==> b.nextCollectionIso == IsoDate(parseDate(b.nextCollectionRaw).value))
  {
  }

  /** The rows of exactly four cells, in their original order. */
  function Qualifying(rows: seq<seq<string>>): (q: seq<seq<string>>)
    ensures |q| <= |rows|
    ensures forall k :: 0 <= k < |q| ==> |q[k]| == 4
  {
    if rows == [] then []
    else (if |rows[0]| == 4 then [rows[0]] else []) + Qualifying(rows[1..])
  }

  /** The records of the four-cell rows `q`, one per row, in order. */
  function RecordsOf(q: seq<seq<string>>, parseDate: string -> Option<Date>): (bins: seq<BinCollection>)
    requires forall k :: 0 <= k < |q| ==> |q[k]| == 4
    ensures |bins| == |q|
  {
    if q == [] then [] else RecordsOf(q[..|q| - 1], parseDate) + [Record(q[|q| - 1], parseDate)]
  }

  /** The records of the four-cell rows of `rows`, in order. */
  function Records(rows: seq<seq<string>>, parseDate: string -> Option<Date>): seq<BinCollection>
  {
    RecordsOf(Qualifying(rows), parseDate)
  }

  /** Dropping the last row keeps the records before it. */
  lemma RecordsOfInit(q: seq<seq<string>>, parseDate: string -> Option<Date>, k: nat)
    requires forall j :: 0 <= j < |q| ==> |q[j]| == 4
    requires k < |q| - 1
    ensures RecordsOf(q, parseDate)[k] == RecordsOf(q[..|q| - 1], parseDate)[k]
  {
    assert forall j :: 0 <= j < |q| - 1 ==> q[..|q| - 1][j] == q[j];
  }

  /** The last record is the record of the last row. */
  lemma RecordsOfLast(q: seq<seq<string>>, parseDate: string -> Option<Date>)
    requires forall j :: 0 <= j < |q| ==> |q[j]| == 4
    requires q != []
    ensures RecordsOf(q, parseDate)[|q| - 1] == Record(q[|q| - 1], parseDate)
  {
    assert forall j :: 0 <= j < |q| - 1 ==> q[..|q| - 1][j] == q[j];
  }

  /** The `k`-th record is the record of the `k`-th row. */
  lemma {:induction false} RecordsOfAt(q: seq<seq<string>>, parseDate: string -> Option<Date>, k: nat)
    requires forall j :: 0 <= j < |q| ==> |q[j]| == 4
    requires k < |q|
    ensures RecordsOf(q, parseDate)[k] == Record(q[k], parseDate)
    decreases |q|
  {
    var init := q[..|q| - 1];
    assert forall j :: 0 <= j < |init| ==> init[j] == q[j];
    if k < |init| {
      RecordsOfInit(q, parseDate, k);
      RecordsOfAt(init, parseDate, k);
      assert init[k] == q[k];
    } else {
      assert k == |q| - 1;
      RecordsOfLast(q, parseDate);
    }
  }

  /** The rows kept from a concatenation are those kept from each part, in order. */
  lemma {:induction false} QualifyingAppend(a: seq<seq<string>>, b: seq<seq<string>>)
    ensures Qualifying(a + b) == Qualifying(a) + Qualifying(b)
    decreases |a|
  {
    if a == [] {
      assert a + b == b;
    } else {
      var head := if |a[0]| == 4 then [a[0]] else [];
      assert (a + b)[0] == a[0];
      assert (a + b)[1..] == a[1..] + b;
      QualifyingAppend(a[1..], b);
      ConcatAssoc(head, Qualifying(a[1..]), Qualifying(b));
    }
  }

  /** Every kept row is a row of the input. */
  lemma {:induction false} QualifyingOrigin(rows: seq<seq<string>>, j: nat)
    requires j < |Qualifying(rows)|
    ensures Qualifying(rows)[j] in rows
    decreases |rows|
  {
    var head := if |rows[0]| == 4 then [rows[0]] else [];
    if j >= |head| {
      QualifyingOrigin(rows[1..], j - |head|);
    }
  }

  /** Every row of exactly four cells is kept. */
  lemma {:induction false} QualifyingComplete(rows: seq<seq<string>>, i: nat)
    requires i < |rows| && |rows[i]| == 4
    ensures rows[i] in Qualifying(rows)
    decreases |rows|
  {
    if i > 0 {
      assert rows[1..][i - 1] == rows[i];
      QualifyingComplete(rows[1..], i - 1);
    }
  }

  /** Nothing is kept exactly when no row has four cells. */
  lemma {:induction false} QualifyingEmpty(rows: seq<seq<string>>)
    ensures Qualifying(rows) == [] <==> forall i :: 0 <= i < |rows| ==> |rows[i]| != 4
    decreases |rows|
  {
    if rows != [] {
      QualifyingEmpty(rows[1..]);
      assert forall i :: 1 <= i < |rows| ==> rows[i] == rows[1..][i - 1];
    }
  }

  /** Every record is the record of a four-cell row of the input, and the records follow the kept rows' order. */
  lemma RecordsOfRows(rows: seq<seq<string>>, parseDate: string -> Option<Date>)
    ensures |Records(rows, parseDate)| == |Qualifying(rows)|
    ensures forall j :: 0 <= j < |Records(rows, parseDate)| ==>
              Qualifying(rows)[j] in rows && Records(rows, parseDate)[j] == Record(Qualifying(rows)[j], parseDate)
  {
    forall j | 0 <= j < |Qualifying(rows)|
      ensures Qualifying(rows)[j] in rows && Records(rows, parseDate)[j] == Record(Qualifying(rows)[j], parseDate)
    {
      QualifyingOrigin(rows, j);
      RecordsOfAt(Qualifying(rows), parseDate, j);
    }
  }

  /** Extending the scanned prefix by one row adds at most that row's record. */
  lemma RecordsSnoc(rows: seq<seq<string>>, i: nat, parseDate: string -> Option<Date>)
    requires i < |rows|
    ensures Records(rows[..i + 1], parseDate)
            == Records(rows[..i], parseDate) + (if |rows[i]| == 4 then [Record(rows[i], parseDate)] else [])
  {
    var p := Qualifying(rows[..i]);
    assert rows[..i + 1] == rows[..i] + [rows[i]];
    QualifyingAppend(rows[..i], [rows[i]]);
    if |rows[i]| == 4 {
      assert Qualifying([rows[i]]) == [rows[i]];
      var q := p + [rows[i]];
      assert q[..|q| - 1] == p;
    } else {
      assert Qualifying([rows[i]]) == [];
      assert p + [] == p;
    }
  }

  /** The row loop of `parse_bin_data`: one record appended per four-cell row. */
  method CollectRows(rows: seq<seq<string>>, parseDate: string -> Option<Date>) returns (bins: seq<BinCollection>)
    ensures bins == Records(rows, parseDate)
  {
    bins := [];
    var i := 0;
    while i < |rows|
      invariant 0 <= i <= |rows|
      invariant bins == Records(rows[..i], parseDate)
    {
      var cols := rows[i];
      RecordsSnoc(rows, i, parseDate);
      if |cols| == 4 {
        var nextCollectionRaw := Strip(cols[3], Whitespace);
        var nextCollectionIso := "";
        match parseDate(nextCollectionRaw) {
          case Some(d) => nextCollectionIso := IsoDate(d);
          case None => nextCollectionIso := "";
        }
        var binData := BinCollection(Strip(cols[0], Whitespace), nextCollectionRaw, nextCollectionIso);
        assert binData == Record(cols, parseDate);
        bins := bins + [binData];
      }
      i := i + 1;
    }
    assert rows[..i] == rows;
  }
}
