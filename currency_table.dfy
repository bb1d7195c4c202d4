/** The Currency table behind both DAO revisions: rows keyed by currency code,
    read back through the primary-key order. The rows are kept as a sequence
    in ascending code order; `Table` is the map from code to rate that the
    sequence denotes. */
module CurrencyTable {
  import opened Resources

  /** One row: a currency code (the primary key) and its exchange rate. The
      rate type differs between revisions (Double in one, String in the other). */
  datatype Currency<R> = Currency(currencyCode: string, exchangeRate: R)

  /** Lexicographic order on codes, character by character, a proper prefix
      first: the order SQLite's BINARY collation gives to ORDER BY. */
  predicate CodeLess(a: string, b: string) {
    if |a| == 0 then |b| > 0
    else if |b| == 0 then false
    else a[0] < b[0] || (a[0] == b[0] && CodeLess(a[1..], b[1..]))
  }

  lemma {:induction false} CodeLessIrreflexive(a: string)
    ensures !CodeLess(a, a)
  {
    if |a| > 0 {
      CodeLessIrreflexive(a[1..]);
    }
  }

  lemma {:induction false} CodeLessTransitive(a: string, b: string, c: string)
    requires CodeLess(a, b) && CodeLess(b, c)
    ensures CodeLess(a, c)
  {
    if |a| > 0 && a[0] == b[0] && b[0] == c[0] {
      CodeLessTransitive(a[1..], b[1..], c[1..]);
    }
  }

  lemma {:induction false} CodeLessTotal(a: string, b: string)
    requires a != b
    ensures CodeLess(a, b) || CodeLess(b, a)
  {
    if |a| > 0 && |b| > 0 && a[0] == b[0] {
      assert a == [a[0]] + a[1..] && b == [b[0]] + b[1..];
      CodeLessTotal(a[1..], b[1..]);
    }
  }

  /** Every row's code is below every later row's code: the rows are in
      ascending order and no code occurs twice. */
  ghost predicate StrictlySorted<R>(rows: seq<Currency<R>>) {
    forall i, j :: 0 <= i < j < |rows| ==> CodeLess(rows[i].currencyCode, rows[j].currencyCode)
  }

  /** The code column, row by row. */
  function Codes<R>(rows: seq<Currency<R>>): (codes: seq<string>)
    ensures |codes| == |rows|
    ensures forall i :: 0 <= i < |rows| ==> codes[i] == rows[i].currencyCode
  {
    seq(|rows|, i requires 0 <= i < |rows| => rows[i].currencyCode)
  }

  /** Sortedness is a property of the code column alone. */
  lemma SortedByCodes<R>(a: seq<Currency<R>>, b: seq<Currency<R>>)
    requires Codes(a) == Codes(b) && StrictlySorted(a)
    ensures StrictlySorted(b)
  {
    forall i, j | 0 <= i < j < |b|
      ensures CodeLess(b[i].currencyCode, b[j].currencyCode)
    {
      assert Codes(a)[i] == Codes(b)[i] && Codes(a)[j] == Codes(b)[j];
    }
  }

  /** The map from code to rate a list of rows denotes; of two rows with the
      same code the later one wins. */
  ghost function Table<R>(rows: seq<Currency<R>>): map<string, R> {
    if rows == [] then map[]
    else map[rows[0].currencyCode := rows[0].exchangeRate] + Table(rows[1..])
  }

  lemma {:induction false} TableKeys<R>(rows: seq<Currency<R>>)
    ensures forall k :: k in Table(rows) <==> k in Codes(rows)
  {
    if rows != [] {
      TableKeys(rows[1..]);
      assert Codes(rows) == [rows[0].currencyCode] + Codes(rows[1..]);
    }
  }

  /** Appending a row overrides its code's entry. */
  lemma {:induction false} TableSnoc<R>(rows: seq<Currency<R>>, c: Currency<R>)
    ensures Table(rows + [c]) == Table(rows)[c.currencyCode := c.exchangeRate]
  {
    if rows == [] {
      assert rows + [c] == [c];
    } else {
      assert (rows + [c])[1..] == rows[1..] + [c];
      TableSnoc(rows[1..], c);
    }
  }

  /** Prepending an entry for a key the map lacks is an update. */
  lemma PrependFresh<V>(k: string, v: V, m: map<string, V>)
    requires k !in m
    ensures map[k := v] + m == m[k := v]
  {
  }

  /** Overriding after a union is overriding the right operand. */
  lemma UnionUpdate<V>(a: map<string, V>, b: map<string, V>, k: string, v: V)
    ensures (a + b)[k := v] == a + b[k := v]
  {
  }

  /** The first code of a sorted table is not among the codes after it. */
  lemma FirstCodeFresh<R>(rows: seq<Currency<R>>)
    requires StrictlySorted(rows) && rows != []
    ensures rows[0].currencyCode !in Table(rows[1..])
  {
    var k, rest := rows[0].currencyCode, rows[1..];
    TableKeys(rest);
    if k in Table(rest) {
      var j :| 0 <= j < |rest| && rest[j].currencyCode == k;
      assert CodeLess(k, rows[j + 1].currencyCode);
      CodeLessIrreflexive(k);
    }
  }

  /** In a sorted table every row is the one its code maps to. */
  lemma {:induction false} SortedTableAt<R>(rows: seq<Currency<R>>, i: nat)
    requires StrictlySorted(rows) && i < |rows|
    ensures rows[i].currencyCode in Table(rows)
    ensures Table(rows)[rows[i].currencyCode] == rows[i].exchangeRate
  {
    var rest := rows[1..];
    assert StrictlySorted(rest);
    if i == 0 {
      FirstCodeFresh(rows);
    } else {
      SortedTableAt(rest, i - 1);
    }
  }

  /** A sorted table has one entry per row. */
  lemma {:induction false} SortedTableSize<R>(rows: seq<Currency<R>>)
    requires StrictlySorted(rows)
    ensures |Table(rows)| == |rows|
  {
    if rows != [] {
      var rest := rows[1..];
      assert StrictlySorted(rest);
      SortedTableSize(rest);
      FirstCodeFresh(rows);
      PrependFresh(rows[0].currencyCode, rows[0].exchangeRate, Table(rest));
    }
  }

  /** The first row with the given code (the row a keyed SELECT returns). */
  function Find<R>(rows: seq<Currency<R>>, code: string): (r: Option<Currency<R>>)
    ensures r.Some? ==> r.value in rows && r.value.currencyCode == code
    ensures r.None? ==> code !in Codes(rows)
  {
    if rows == [] then None
    else if rows[0].currencyCode == code then Some(rows[0])
    else
      var r := Find(rows[1..], code);
      assert Codes(rows) == [rows[0].currencyCode] + Codes(rows[1..]);
      r
  }

  /** In a sorted table the keyed lookup agrees with the map view. */
  lemma FindAgreesWithTable<R>(rows: seq<Currency<R>>, code: string)
    requires StrictlySorted(rows)
    ensures Find(rows, code).Some? <==> code in Table(rows)
    ensures code in Table(rows) ==> Find(rows, code) == Some(Currency(code, Table(rows)[code]))
  {
    TableKeys(rows);
    var r := Find(rows, code);
    if r.Some? {
      var i :| 0 <= i < |rows| && rows[i] == r.value;
      SortedTableAt(rows, i);
    }
  }

  // ---------------------------------------------------------------------
  // Upsert: insert a new code at its place, or replace the row with that code

  function Upsert<R>(rows: seq<Currency<R>>, c: Currency<R>): seq<Currency<R>> {
    if rows == [] then [c]
    else if rows[0].currencyCode == c.currencyCode then [c] + rows[1..]
    else if CodeLess(c.currencyCode, rows[0].currencyCode) then [c] + rows
    else [rows[0]] + Upsert(rows[1..], c)
  }

  /** Upserting into a sorted table keeps it sorted, adds exactly the new
      code, and makes that code map to the new rate. */
  lemma UpsertSpec<R>(rows: seq<Currency<R>>, c: Currency<R>)
    requires StrictlySorted(rows)
    ensures StrictlySorted(Upsert(rows, c))
    ensures forall k :: k in Codes(Upsert(rows, c)) <==> k in Codes(rows) || k == c.currencyCode
    ensures Table(Upsert(rows, c)) == Table(rows)[c.currencyCode := c.exchangeRate]
  {
    UpsertCodes(rows, c);
    UpsertSorted(rows, c);
    UpsertTable(rows, c);
  }

  lemma {:induction false} UpsertCodes<R>(rows: seq<Currency<R>>, c: Currency<R>)
    ensures forall k :: k in Codes(Upsert(rows, c)) <==> k in Codes(rows) || k == c.currencyCode
  {
    var r := Upsert(rows, c);
    if rows == [] {
      assert Codes(r) == [c.currencyCode];
    } else if rows[0].currencyCode == c.currencyCode {
      assert Codes(r) == Codes(rows);
      assert Codes(rows)[0] == c.currencyCode;
    } else if CodeLess(c.currencyCode, rows[0].currencyCode) {
      assert Codes(r) == [c.currencyCode] + Codes(rows);
    } else {
      UpsertCodes(rows[1..], c);
      assert Codes(r) == [rows[0].currencyCode] + Codes(Upsert(rows[1..], c));
      assert Codes(rows) == [rows[0].currencyCode] + Codes(rows[1..]);
    }
  }

  lemma {:induction false} UpsertSorted<R>(rows: seq<Currency<R>>, c: Currency<R>)
    requires StrictlySorted(rows)
    ensures StrictlySorted(Upsert(rows, c))
  {
    var r := Upsert(rows, c);
    if rows == [] {
    } else if rows[0].currencyCode == c.currencyCode {
      assert r[1..] == rows[1..];
    } else if CodeLess(c.currencyCode, rows[0].currencyCode) {
      assert r[1..] == rows;
      forall j | 0 < j < |r|
        ensures CodeLess(c.currencyCode, r[j].currencyCode)
      {
        if j > 1 {
          CodeLessTransitive(c.currencyCode, rows[0].currencyCode, rows[j - 1].currencyCode);
        }
      }
    } else {
      var rest := rows[1..];
      var k0 := rows[0].currencyCode;
      assert StrictlySorted(rest);
      UpsertSorted(rest, c);
      UpsertCodes(rest, c);
      var tail := Upsert(rest, c);
      assert r == [rows[0]] + tail;
      CodeLessTotal(k0, c.currencyCode);
      forall j | 0 <= j < |tail|
        ensures CodeLess(k0, tail[j].currencyCode)
      {
        assert tail[j].currencyCode in Codes(tail);
        if tail[j].currencyCode != c.currencyCode {
          var i :| 0 <= i < |rest| && Codes(rest)[i] == tail[j].currencyCode;
          assert rows[i + 1] == rest[i];
        }
      }
    }
  }

  lemma {:induction false} UpsertTable<R>(rows: seq<Currency<R>>, c: Currency<R>)
    requires StrictlySorted(rows)
    ensures Table(Upsert(rows, c)) == Table(rows)[c.currencyCode := c.exchangeRate]
  {
    var r := Upsert(rows, c);
    if rows == [] {
    } else if rows[0].currencyCode == c.currencyCode {
      assert r[1..] == rows[1..];
      FirstCodeFresh(rows);
      PrependFresh(c.currencyCode, c.exchangeRate, Table(rows[1..]));
      PrependFresh(c.currencyCode, rows[0].exchangeRate, Table(rows[1..]));
    } else if CodeLess(c.currencyCode, rows[0].currencyCode) {
      assert r[1..] == rows;
      TableKeys(rows);
      if c.currencyCode in Table(rows) {
        var i :| 0 <= i < |rows| && rows[i].currencyCode == c.currencyCode;
        if i > 0 {
          CodeLessTransitive(c.currencyCode, rows[0].currencyCode, rows[i].currencyCode);
        }
        CodeLessIrreflexive(c.currencyCode);
      }
      PrependFresh(c.currencyCode, c.exchangeRate, Table(rows));
    } else {
      var rest := rows[1..];
      assert StrictlySorted(rest);
      UpsertTable(rest, c);
      assert r == [rows[0]] + Upsert(rest, c);
      UnionUpdate(map[rows[0].currencyCode := rows[0].exchangeRate], Table(rest), c.currencyCode, c.exchangeRate);
    }
  }

  /** The rows upserted one after the other, in list order. */
  function UpsertAll<R>(rows: seq<Currency<R>>, cs: seq<Currency<R>>): seq<Currency<R>> {
    if cs == [] then rows else Upsert(UpsertAll(rows, cs[..|cs| - 1]), cs[|cs| - 1])
  }

  /** Upserting a list keeps the table sorted, and the table afterwards is the
      old one overridden by the list, a later entry for a code winning. */
  lemma {:induction false} UpsertAllSpec<R>(rows: seq<Currency<R>>, cs: seq<Currency<R>>)
    requires StrictlySorted(rows)
    ensures StrictlySorted(UpsertAll(rows, cs))
    ensures Table(UpsertAll(rows, cs)) == Table(rows) + Table(cs)
  {
    if cs != [] {
      var init, last := cs[..|cs| - 1], cs[|cs| - 1];
      UpsertAllSpec(rows, init);
      UpsertSpec(UpsertAll(rows, init), last);
      assert cs == init + [last];
      TableSnoc(init, last);
      UnionUpdate(Table(rows), Table(init), last.currencyCode, last.exchangeRate);
    }
  }

  // ---------------------------------------------------------------------
  // Update: change the rate of the row with a code, never insert

  function UpdateRate<R>(rows: seq<Currency<R>>, code: string, rate: R): (r: seq<Currency<R>>)
    ensures Codes(r) == Codes(rows)
  {
    if rows == [] then []
    else
      [if rows[0].currencyCode == code then Currency(code, rate) else rows[0]]
        + UpdateRate(rows[1..], code, rate)
  }

  /** An update changes the rate of the matching code only, and adds no code. */
  lemma {:induction false} UpdateRateSpec<R>(rows: seq<Currency<R>>, code: string, rate: R)
    ensures Table(UpdateRate(rows, code, rate))
      == if code in Table(rows) then Table(rows)[code := rate] else Table(rows)
  {
    if rows != [] {
      var rest := rows[1..];
      var r := UpdateRate(rows, code, rate);
      UpdateRateSpec(rest, code, rate);
      assert r[1..] == UpdateRate(rest, code, rate);
    }
  }

  /** The updates applied one after the other, in list order. */
  function UpdateAll<R>(rows: seq<Currency<R>>, cs: seq<Currency<R>>): (r: seq<Currency<R>>)
    ensures Codes(r) == Codes(rows)
  {
    if cs == [] then rows
    else UpdateRate(UpdateAll(rows, cs[..|cs| - 1]), cs[|cs| - 1].currencyCode, cs[|cs| - 1].exchangeRate)
  }

  /** Updating with a list leaves the set of codes alone; a stored code takes
      the rate of the last list entry with that code, if any. */
  lemma {:induction false} UpdateAllSpec<R>(rows: seq<Currency<R>>, cs: seq<Currency<R>>)
    ensures Table(UpdateAll(rows, cs)).Keys == Table(rows).Keys
    ensures forall k :: k in Table(rows) ==>
      Table(UpdateAll(rows, cs))[k] == if k in Table(cs) then Table(cs)[k] else Table(rows)[k]
  {
    if cs != [] {
      var init, last := cs[..|cs| - 1], cs[|cs| - 1];
      var before := UpdateAll(rows, init);
      UpdateAllSpec(rows, init);
      UpdateRateSpec(before, last.currencyCode, last.exchangeRate);
      assert cs == init + [last];
      TableSnoc(init, last);
      assert Table(UpdateAll(rows, cs)) == Table(UpdateRate(before, last.currencyCode, last.exchangeRate));
      forall k | k in Table(rows)
        ensures Table(UpdateAll(rows, cs))[k] == if k in Table(cs) then Table(cs)[k] else Table(rows)[k]
      {
        if k != last.currencyCode {
          assert (k in Table(cs)) == (k in Table(init));
        }
      }
    }
  }
}
