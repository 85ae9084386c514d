/**
 The batched insert of src/database/database.cpp: rows accumulate in one string, which
 execute cuts at row boundaries into queries of bounded size.
 */
module DbInsert {

  const MAX_QUERY_SIZE: nat := 8 * 1024 * 1024
  const SIZE_T_RANGE: nat := 0x1_0000_0000_0000_0000

  /** The text "),(" stands in s at index j. */
  predicate Boundary(s: string, j: int) {
    0 <= j && j + 3 <= |s| && s[j] == ')' && s[j + 1] == ',' && s[j + 2] == '('
  }

  /** rfind("),(", p): the last boundary at or before p, or -1. */
  function RFind(s: string, p: int): (r: int)
    requires -1 <= p
    ensures -1 <= r <= p
    ensures r >= 0 ==> Boundary(s, r)
    ensures forall j :: r < j <= p ==> !Boundary(s, j)
    decreases p
  {
    if p == -1 then -1 else if Boundary(s, p) then p else RFind(s, p - 1)
  }

  /** The size_t expression MAX_QUERY_SIZE - base - upsert, which wraps when the texts do not fit. */
  function CutLimit(base: nat, upsert: nat): (limit: nat)
    requires base + upsert < SIZE_T_RANGE
  {
    if base + upsert <= MAX_QUERY_SIZE then MAX_QUERY_SIZE - base - upsert
    else SIZE_T_RANGE + MAX_QUERY_SIZE - base - upsert
  }

  /** The batches execute sends, and whether it reaches the end of the values. */
  datatype Cuts = Cuts(batches: seq<string>, complete: bool)

  function WithoutComma(s: string): (r: string)
    requires s != ""
  {
    if s[|s| - 1] == ',' then s[..|s| - 1] else s
  }

  function Split(values: string, limit: nat): (r: Cuts)
    decreases |values|
  {
    if values == "" then Cuts([], true)
    else if limit < |values| then
      var p := RFind(values, limit);
      if p == -1 then Cuts([], false)
      else
        var rest := Split(values[p + 2..], limit);
        Cuts([WithoutComma(values[..p + 2])] + rest.batches, rest.complete)
    else Cuts([WithoutComma(values)], true)
  }

  function Join(parts: seq<string>): (s: string) {
    if |parts| == 0 then "" else if |parts| == 1 then parts[0] else parts[0] + "," + Join(parts[1..])
  }

  /** Joined by commas, the batches of a complete split are the values; no batch is empty. */
  lemma {:induction false} SplitJoins(values: string, limit: nat)
    requires values != "" && values[|values| - 1] != ','
    requires Split(values, limit).complete
    ensures Split(values, limit).batches != [] && Join(Split(values, limit).batches) == values
    decreases |values|
  {
    hide RFind, Split, WithoutComma;
    SplitOnce(values, limit);
    SplitEnds(values, limit);
    if limit < |values| {
      var p := RFind(values, limit);
      var rest := values[p + 2..];
      CommaDropped(values, p);
      SplitJoins(rest, limit);
      JoinCons(values[..p + 1], Split(rest, limit).batches);
      assert values == values[..p + 1] + "," + rest;
    } else {
      NoCommaLast(values);
    }
  }

  lemma JoinCons(first: string, rest: seq<string>)
    requires rest != []
    ensures Join([first] + rest) == first + "," + Join(rest)
  {
    assert ([first] + rest)[1..] == rest;
  }

  lemma NoCommaLast(s: string)
    requires s != "" && s[|s| - 1] != ','
    ensures WithoutComma(s) == s && Join([s]) == s
  {
  }

  /** Every batch, complete split or not, is within one character of the limit. */
  lemma {:induction false} SplitBounded(values: string, limit: nat, k: nat)
    requires k < |Split(values, limit).batches|
    ensures |Split(values, limit).batches[k]| <= limit + 1
    decreases |values|
  {
    if values != "" && limit < |values| && k > 0 {
      SplitBounded(values[RFind(values, limit) + 2..], limit, k - 1);
    }
  }

  // ---------- rows ----------

  /** The accumulated values of a list of rows. */
  function Values(rows: seq<string>): (s: string) {
    if rows == [] then "" else if |rows| == 1 then "(" + rows[0] + ")"
    else "(" + rows[0] + ")," + Values(rows[1..])
  }

  predicate Clean(row: string) {
    forall j :: 0 <= j < |row| ==> !Boundary(row, j)
  }

  lemma {:induction false} ValuesShape(rows: seq<string>)
    requires rows != []
    ensures |Values(rows)| >= 2 && Values(rows)[0] == '(' && Values(rows)[|Values(rows)| - 1] == ')'
  {
    if |rows| > 1 {
      ValuesShape(rows[1..]);
    }
  }

  lemma Associate(a: string, b: string, c: string)
    ensures a + (b + c) == a + b + c
  {
  }

  /** A further row as it is appended. */
  function Further(row: string): (s: string) {
    ",(" + row + ")"
  }

  lemma {:induction false} ValuesFurther(rows: seq<string>, row: string)
    requires rows != []
    ensures Values(rows + [row]) == Values(rows) + Further(row)
  {
    hide Values, Further;
    if |rows| == 1 {
      TwoRows(rows[0], row);
      assert rows == [rows[0]] && rows + [row] == [rows[0], row];
    } else {
      var rest := rows[1..];
      ValuesFurther(rest, row);
      assert (rows + [row])[1..] == rest + [row];
      ValuesFirst(rows);
      ValuesFirst(rows + [row]);
      Associate("(" + rows[0] + "),", Values(rest), Further(row));
    }
  }

  lemma {:induction false} ValuesFirst(rows: seq<string>)
    requires |rows| > 1
    ensures Values(rows) == "(" + rows[0] + ")," + Values(rows[1..])
  {
  }

  lemma {:induction false} TwoRows(a: string, b: string)
    ensures Values([a, b]) == Values([a]) + Further(b)
  {
    assert [a, b][1..] == [b];
    assert Values([a, b]) == "(" + a + ")," + ("(" + b + ")");
  }

  lemma {:induction false} ValuesAppend(rows: seq<string>, row: string)
    ensures Values(rows + [row]) == if rows == [] then "(" + row + ")" else Values(rows) + ",(" + row + ")"
  {
    if rows == [] {
      assert rows + [row] == [row];
    } else {
      ValuesFurther(rows, row);
      Associate(Values(rows), ",(", row + ")");
      assert Further(row) == ",(" + (row + ")");
      assert Values(rows) + ",(" + row + ")" == Values(rows) + ",(" + (row + ")");
    }
  }

  /** The first boundary of clean rows is the one after the first row. */
  lemma {:induction false} FirstBoundary(rows: seq<string>, j: int)
    requires rows != [] && Clean(rows[0])
    ensures |rows| > 1 ==> Boundary(Values(rows), |rows[0]| + 1)
    ensures j <= |rows[0]| ==> !Boundary(Values(rows), j)
    ensures |rows| == 1 ==> !Boundary(Values(rows), j)
  {
    var row, s := rows[0], Values(rows);
    if |rows| > 1 {
      ValuesShape(rows[1..]);
    }
    assert s[0] == '(' && s[|row| + 1] == ')';
    assert forall i :: 0 <= i < |row| ==> s[i + 1] == row[i];
    if Boundary(s, j) && 1 <= j && j + 2 <= |row| {
      assert row[j - 1] == s[j] && row[j] == s[j + 1] && row[j + 1] == s[j + 2];
      assert Boundary(row, j - 1);
    }
  }

  /** The boundaries behind the first row are those of the other rows. */
  lemma {:induction false} LaterBoundary(rows: seq<string>, j: int)
    requires |rows| > 1
    ensures var skip := |rows[0]| + 3;
            Values(rows)[skip..] == Values(rows[1..])
            && (j >= skip ==> (Boundary(Values(rows), j) <==> Boundary(Values(rows[1..]), j - skip)))
            && (skip - 2 < j < skip ==> !Boundary(Values(rows), j))
  {
    var row, s, skip := rows[0], Values(rows), |rows[0]| + 3;
    ValuesShape(rows[1..]);
    assert s == "(" + row + ")," + Values(rows[1..]);
    assert s[skip..] == Values(rows[1..]);
  }

  /** A boundary of clean rows lies between two of them. */
  lemma {:induction false} BoundarySplits(rows: seq<string>, p: int) returns (k: nat)
    requires rows != [] && (forall r :: r in rows ==> Clean(r)) && Boundary(Values(rows), p)
    ensures 0 < k < |rows| && Values(rows)[..p + 1] == Values(rows[..k]) && Values(rows)[p + 2..] == Values(rows[k..])
    decreases |rows|
  {
    hide Clean, Boundary;
    FirstBoundary(rows, p);
    var skip := |rows[0]| + 3;
    LaterBoundary(rows, p);
    BoundaryFits(Values(rows), p);
    if p == skip - 2 {
      k := 1;
      assert rows[..1] == [rows[0]];
      Slices("(" + rows[0] + ")", Values(rows[1..]), -1);
    } else {
      assert forall r :: r in rows[1..] ==> r in rows;
      BoundaryFits(Values(rows[1..]), p - skip);
      var k1 := BoundarySplits(rows[1..], p - skip);
      k := k1 + 1;
      assert rows[..k][1..] == rows[1..][..k1];
      assert rows[k..] == rows[1..][k1..];
      Slices("(" + rows[0] + ")", Values(rows[1..]), p - skip);
    }
  }

  lemma BoundaryFits(s: string, p: int)
    ensures Boundary(s, p) ==> 0 <= p && p + 2 < |s|
  {
  }

  /** Cutting a text made of a first row, a comma and the rest: between them, or inside the rest. */
  lemma Slices(row: string, rest: string, p: int)
    requires -1 <= p < |rest| - 1
    ensures var s := row + "," + rest;
            if p == -1 then s[..|row|] == row && s[|row| + 1..] == rest
            else s[..|row| + p + 2] == row + "," + rest[..p + 1] && s[|row| + p + 3..] == rest[p + 2..]
  {
  }

  function Concat(groups: seq<seq<string>>): (r: seq<string>) {
    if groups == [] then [] else groups[0] + Concat(groups[1..])
  }

  /** The batches are the values of these groups of rows. */
  ghost predicate Grouped(batches: seq<string>, groups: seq<seq<string>>, rows: seq<string>) {
    && |batches| == |groups| && Concat(groups) == rows
    && forall i :: 0 <= i < |groups| ==> groups[i] != [] && batches[i] == Values(groups[i])
  }

  /** One cut, seen on rows: a run of them goes out, the others stay, and the limit allows no later cut. */
  lemma {:induction false} CutRows(rows: seq<string>, limit: nat) returns (k: nat)
    requires (forall r :: r in rows ==> Clean(r)) && limit < |Values(rows)| && RFind(Values(rows), limit) != -1
    ensures 0 < k < |rows| && |Values(rows[..k])| <= limit + 1
    ensures Values(rows)[..RFind(Values(rows), limit) + 1] == Values(rows[..k])
    ensures Split(Values(rows), limit)
         == var rest := Split(Values(rows[k..]), limit); Cuts([Values(rows[..k])] + rest.batches, rest.complete)
  {
    hide Values, RFind;
    var values := Values(rows);
    NoValues();
    var p := RFind(values, limit);
    k := BoundarySplits(rows, p);
    assert WithoutComma(values[..p + 2]) == values[..p + 1];
  }

  /** The other ways a split can go: nothing to send, nowhere to cut, everything at once. */
  lemma {:induction false} LastCut(rows: seq<string>, limit: nat)
    ensures rows == [] ==> Values(rows) == "" && Split(Values(rows), limit) == Cuts([], true)
    ensures limit < |Values(rows)| && RFind(Values(rows), limit) == -1 ==> Split(Values(rows), limit) == Cuts([], false)
    ensures rows != [] && |Values(rows)| <= limit ==> Split(Values(rows), limit) == Cuts([Values(rows)], true)
  {
    if rows != [] {
      ValuesShape(rows);
    }
  }

  lemma NoValues()
    ensures Values([]) == ""
  {
  }

  /** When no row contains "),(", each batch is a non-empty run of whole rows, in insertion order. */
  lemma {:induction false} SplitKeepsRows(rows: seq<string>, limit: nat) returns (groups: seq<seq<string>>)
    requires (forall r :: r in rows ==> Clean(r)) && Split(Values(rows), limit).complete
    ensures Grouped(Split(Values(rows), limit).batches, groups, rows)
    decreases |rows|
  {
    hide Values, Split, RFind;
    LastCut(rows, limit);
    if rows == [] {
      groups := [];
    } else if limit < |Values(rows)| {
      var k := CutRows(rows, limit);
      var rest := SplitKeepsRows(rows[k..], limit);
      groups := [rows[..k]] + rest;
      assert groups[1..] == rest;
      assert Concat(groups) == rows[..k] + rows[k..] == rows;
    } else {
      groups := [rows];
      assert Concat(groups) == rows + Concat([]) == rows;
    }
  }

  /**
   No batch stops early: with the first row of the next batch it would be longer than the limit. And no
   batch is cut unless what is left is too long for one.
   */
  lemma {:induction false} SplitGreedy(rows: seq<string>, limit: nat) returns (groups: seq<seq<string>>)
    requires (forall r :: r in rows ==> Clean(r)) && Split(Values(rows), limit).complete
    ensures Grouped(Split(Values(rows), limit).batches, groups, rows)
    ensures forall i :: 0 <= i < |groups| - 1 ==> |Values(groups[i] + groups[i + 1][..1])| > limit
    decreases |rows|
  {
    hide Values, Split, RFind;
    LastCut(rows, limit);
    if rows == [] {
      groups := [];
    } else if limit < |Values(rows)| {
      var k := CutRows(rows, limit);
      var rest := SplitGreedy(rows[k..], limit);
      groups := [rows[..k]] + rest;
      assert groups[1..] == rest;
      assert Concat(groups) == rows[..k] + rows[k..] == rows;
      if rest != [] {
        NextRowTooLong(rows, limit, k);
        assert rest[0][..1] == rows[k..][..1] by { FirstOfGroups(rest, rows[k..]); }
        assert rows[..k] + rows[k..][..1] == rows[..k + 1];
      }
      forall i | 0 <= i < |groups| - 1
        ensures |Values(groups[i] + groups[i + 1][..1])| > limit
      {
        if i > 0 {
          assert groups[i] == rest[i - 1] && groups[i + 1] == rest[i];
        }
      }
    } else {
      groups := [rows];
      assert Concat(groups) == rows + Concat([]) == rows;
    }
  }

  lemma FirstOfGroups(groups: seq<seq<string>>, rows: seq<string>)
    requires groups != [] && groups[0] != [] && Concat(groups) == rows
    ensures rows != [] && groups[0][..1] == rows[..1]
  {
  }

  /** The cut is made at the last boundary that the limit allows. */
  lemma {:induction false} NextRowTooLong(rows: seq<string>, limit: nat, k: nat)
    requires (forall r :: r in rows ==> Clean(r)) && limit < |Values(rows)| && RFind(Values(rows), limit) != -1
    requires 0 < k < |rows| && Values(rows)[..RFind(Values(rows), limit) + 1] == Values(rows[..k])
    ensures |Values(rows[..k + 1])| > limit
  {
    hide Values, RFind;
    var p := RFind(Values(rows), limit);
    if k + 1 == |rows| {
      assert rows[..k + 1] == rows;
    } else {
      BoundaryAfter(rows, k + 1);
      ValuesGrow(rows, k);
    }
  }

  /** After the first j rows, unless they are all, there is a boundary. */
  lemma {:induction false} BoundaryAfter(rows: seq<string>, j: nat)
    requires 0 < j < |rows|
    ensures |Values(rows[..j])| < |Values(rows)| && Boundary(Values(rows), |Values(rows[..j])| - 1)
    decreases j
  {
    var rest := rows[1..];
    ValuesShape(rest);
    if j == 1 {
      assert rows[..1] == [rows[0]];
    } else {
      BoundaryAfter(rest, j - 1);
      assert rows[..j][1..] == rest[..j - 1];
      var lead := "(" + rows[0] + "),";
      assert Values(rows) == lead + Values(rest) && Values(rows[..j]) == lead + Values(rest[..j - 1]);
      BoundaryShifts(lead, Values(rest), |Values(rest[..j - 1])| - 1);
    }
  }

  lemma BoundaryShifts(lead: string, s: string, p: nat)
    requires Boundary(s, p)
    ensures Boundary(lead + s, |lead| + p)
  {
  }

  lemma {:induction false} ValuesGrow(rows: seq<string>, k: nat)
    requires 0 < k < |rows|
    ensures |Values(rows[..k])| < |Values(rows[..k + 1])|
  {
    assert rows[..k + 1] == rows[..k] + [rows[k]];
    ValuesAppend(rows[..k], rows[k]);
  }

  /** Every row is short enough to end a query, the last one to be a query of its own. */
  predicate RowsFit(rows: seq<string>, limit: nat) {
    && (forall i :: 0 <= i < |rows| - 1 ==> |rows[i]| < limit)
    && (rows != [] ==> |rows[|rows| - 1]| + 2 <= limit)
  }

  /** For clean rows, execute finds all its boundaries exactly when the rows fit. */
  lemma {:induction false} CompleteIff(rows: seq<string>, limit: nat)
    requires forall r :: r in rows ==> Clean(r)
    ensures Split(Values(rows), limit).complete <==> RowsFit(rows, limit)
    decreases |rows|
  {
    hide Values, Split, RFind;
    LastCut(rows, limit);
    RowLengths(rows);
    var values := Values(rows);
    if limit < |values| {
      var p := RFind(values, limit);
      if p == -1 {
        NoCut(rows, limit);
      } else {
        var k := CutRows(rows, limit);
        var sent, kept := rows[..k], rows[k..];
        RowLengths(sent);
        CompleteIff(kept, limit);
        assert forall i :: 0 <= i < k ==> rows[i] == sent[i];
        assert forall i :: k <= i < |rows| ==> rows[i] == kept[i - k];
        assert rows[|rows| - 1] == kept[|kept| - 1];
        if Split(Values(kept), limit).complete {
          forall i | 0 <= i < |rows| - 1
            ensures |rows[i]| < limit
          {
            if i >= k { assert |kept[i - k]| < limit; }
          }
        }
      }
    }
  }

  lemma {:induction false} NoCut(rows: seq<string>, limit: nat)
    requires rows != [] && Clean(rows[0]) && limit < |Values(rows)| && RFind(Values(rows), limit) == -1
    ensures !RowsFit(rows, limit)
  {
    FirstBoundary(rows, 0);
    assert |rows| > 1 ==> |rows[0]| + 1 > limit;
  }

  lemma {:induction false} RowLengths(rows: seq<string>)
    ensures rows == [] ==> Values(rows) == ""
    ensures forall i :: 0 <= i < |rows| ==> |rows[i]| + 2 <= |Values(rows)|
    ensures forall i :: 0 <= i < |rows| - 1 ==> |rows[i]| + 5 <= |Values(rows)|
    decreases |rows|
  {
    if |rows| > 1 {
      RowLengths(rows[1..]);
      ValuesShape(rows[1..]);
      assert forall i :: 1 <= i < |rows| ==> rows[i] == rows[1..][i - 1];
    }
  }

  // ---------- the insert object ----------

  function ColumnList(columns: seq<string>): (s: string) {
    if columns == [] then ""
    else
      var one := "`" + columns[0] + "` = VALUES(`" + columns[0] + "`)";
      if |columns| == 1 then one else one + ", " + ColumnList(columns[1..])
  }

  function UpsertText(columns: seq<string>): (s: string) {
    if columns == [] then "" else " ON DUPLICATE KEY UPDATE " + ColumnList(columns)
  }

  /** What stays fixed over the life of an insert object. */
  datatype Config = Config(query: string, upsert: string, maxPacket: nat) {
    predicate Valid() {
      |query| + |upsert| < SIZE_T_RANGE
    }

    function Limit(): (r: nat)
      requires Valid()
    {
      CutLimit(|query|, |upsert|)
    }

    function Text(batch: string): (s: string) {
      query + " " + batch + upsert
    }

    function Texts(batches: seq<string>): (r: seq<string>) {
      seq(|batches|, i requires 0 <= i < |batches| => Text(batches[i]))
    }

    /** The queries of one call of execute. */
    function Queries(values: string): (r: seq<string>)
      requires Valid()
    {
      Texts(Split(values, Limit()).batches)
    }
  }

  /** No query exceeds the limit by more than two characters, provided the fixed texts fit it. */
  lemma {:induction false} QueryBounded(cfg: Config, values: string, k: nat)
    requires cfg.Valid() && k < |cfg.Queries(values)|
    ensures |cfg.query| + |cfg.upsert| <= MAX_QUERY_SIZE ==> |cfg.Queries(values)[k]| <= MAX_QUERY_SIZE + 2
  {
    SplitBounded(values, cfg.Limit(), k);
  }

  /**
   Every query is the insert text, a blank, some values and the upsert text; and the values of all
   queries of a complete call, joined by commas, are the accumulated values.
   */
  lemma {:induction false} QueriesCarryValues(cfg: Config, values: string) returns (parts: seq<string>)
    requires cfg.Valid() && values != "" && values[|values| - 1] != ',' && Split(values, cfg.Limit()).complete
    ensures |parts| == |cfg.Queries(values)| && Join(parts) == values
    ensures forall k :: 0 <= k < |parts| ==> cfg.Queries(values)[k] == cfg.query + " " + parts[k] + cfg.upsert
  {
    hide Split;
    parts := Split(values, cfg.Limit()).batches;
    SplitJoins(values, cfg.Limit());
  }

  /** A column set to the value of the row, behind a comma and a blank. */
  function Assignment(column: string): (s: string) {
    ", `" + column + "` = VALUES(`" + column + "`)"
  }

  /** The assignments of all columns, in order. */
  function Named(columns: seq<string>): (s: string) {
    if columns == [] then "" else Named(columns[..|columns| - 1]) + Assignment(columns[|columns| - 1])
  }

  lemma {:induction false} NamedCons(columns: seq<string>)
    requires columns != []
    ensures Named(columns) == Assignment(columns[0]) + Named(columns[1..])
    decreases |columns|
  {
    hide Assignment;
    var n := |columns| - 1;
    if n == 0 {
      assert columns[..0] == [] && columns[1..] == [];
      assert "" + Assignment(columns[0]) == Assignment(columns[0]) + "";
    } else {
      var older, newer := columns[..n], columns[1..];
      NamedCons(older);
      assert older[1..] == newer[..n - 1];
      Associate(Assignment(columns[0]), Named(newer[..n - 1]), Assignment(columns[n]));
    }
  }

  /** The upsert text names every column once, in order, with a comma and a blank between two of them. */
  lemma {:induction false} ColumnsInOrder(columns: seq<string>)
    requires columns != []
    ensures ", " + ColumnList(columns) == Named(columns)
    decreases |columns|
  {
    hide Named;
    NamedCons(columns);
    var one := "`" + columns[0] + "` = VALUES(`" + columns[0] + "`)";
    assert Assignment(columns[0]) == ", " + one;
    if |columns| == 1 {
      assert columns[1..] == [];
      NothingNamed();
    } else {
      ColumnsInOrder(columns[1..]);
      Associate(one, ", ", ColumnList(columns[1..]));
      Associate(", ", one, ", " + ColumnList(columns[1..]));
    }
  }

  lemma NothingNamed()
    ensures Named([]) == ""
  {
  }

  /** A database that accepts or refuses each query as it likes, and remembers those it ran. */
  class Database {
    const maxPacketSize: nat
    const accepts: (seq<string>, string) -> bool
    var log: seq<string>

    constructor (maxPacketSize: nat, accepts: (seq<string>, string) -> bool)
      ensures this.maxPacketSize == maxPacketSize && this.accepts == accepts && log == []
    {
      this.maxPacketSize, this.accepts, log := maxPacketSize, accepts, [];
    }

    method ExecuteQuery(query: string) returns (ok: bool)
      modifies this
      ensures ok == accepts(old(log), query)
      ensures log == if ok then old(log) + [query] else old(log)
    {
      ok := accepts(log, query);
      if ok {
        log := log + [query];
      }
    }
  }

  /** The log after sending the queries until one is refused, and whether none was. */
  function Send(accepts: (seq<string>, string) -> bool, log: seq<string>,
                queries: seq<string>): (r: (seq<string>, bool))
    ensures r.1 ==> r.0 == log + queries
    ensures log <= r.0
    decreases |queries|
  {
    if queries == [] then (log, true)
    else if accepts(log, queries[0]) then Send(accepts, log + [queries[0]], queries[1..])
    else (log, false)
  }

  /** Queries are sent in order up to the first one that is refused, and none after it. */
  lemma {:induction false} SendStops(accepts: (seq<string>, string) -> bool, log: seq<string>, queries: seq<string>)
    returns (k: nat)
    ensures k <= |queries| && Send(accepts, log, queries) == (log + queries[..k], k == |queries|)
    ensures forall j :: 0 <= j < k ==> accepts(log + queries[..j], queries[j])
    ensures k < |queries| ==> !accepts(log + queries[..k], queries[k])
    decreases |queries|
  {
    if queries == [] || !accepts(log, queries[0]) {
      k := 0;
      assert log + queries[..0] == log;
    } else {
      var log1, rest := log + [queries[0]], queries[1..];
      k := SendStops(accepts, log1, rest);
      forall j | 0 <= j <= k
        ensures log1 + rest[..j] == log + queries[..j + 1]
      {
        assert queries[..j + 1] == [queries[0]] + rest[..j];
      }
      assert log + queries[..0] == log;
      forall j | 0 <= j < k + 1
        ensures accepts(log + queries[..j], queries[j])
      {
        if j > 0 {
          assert log1 + rest[..j - 1] == log + queries[..j] && rest[j - 1] == queries[j];
        }
      }
      k := k + 1;
    }
  }

  /** The mutable part of an insert object and the log it writes to. */
  datatype Progress = Progress(values: string, length: nat, log: seq<string>)

  function Appended(values: string, row: string): (s: string) {
    if values == "" then "(" + row + ")" else values + ",(" + row + ")"
  }

  /** A row added with success: a flush sends everything accumulated so far, and keeps it. */
  function AddRow(cfg: Config, p: Progress, row: string): (r: Progress)
    requires cfg.Valid()
  {
    var length := p.length + |row|;
    var log := if length > cfg.maxPacket then p.log + cfg.Queries(p.values) else p.log;
    Progress(Appended(p.values, row), length, log)
  }

  class DBInsert {
    const query: string
    const db: Database
    var upsertColumns: seq<string>
    var values: string
    var length: nat

    ghost function Cfg(): Config
      reads this
    {
      Config(query, UpsertText(upsertColumns), db.maxPacketSize)
    }

    ghost function State(): Progress
      reads this, db
    {
      Progress(values, length, db.log)
    }

    constructor (insertQuery: string, db: Database)
      ensures query == insertQuery && this.db == db && upsertColumns == []
      ensures State() == Progress("", |insertQuery|, old(db.log))
    {
      query, this.db, upsertColumns, values, length := insertQuery, db, [], "", |insertQuery|;
    }

    method Upsert(columns: seq<string>)
      modifies `upsertColumns
      ensures upsertColumns == columns
    {
      upsertColumns := columns;
    }

    /** Sends the accumulated values in batches, up to the first refusal or missing boundary. */
    method Execute() returns (ok: bool)
      requires Cfg().Valid()
      modifies db
      ensures var cuts := Split(values, Cfg().Limit());
              var sent := Send(db.accepts, old(db.log), Cfg().Texts(cuts.batches));
              db.log == sent.0 && ok == (cuts.complete && sent.1)
    {
      hide Split, RFind, CutLimit, UpsertText;
      var baseQuery, upsertQuery := query, UpsertText(upsertColumns);
      ghost var cfg := Cfg();
      ghost var cuts := Split(values, cfg.Limit());
      var currentBatch := values;
      while currentBatch != ""
        invariant var rest := Split(currentBatch, cfg.Limit());
                  && rest.complete == cuts.complete
                  && Send(db.accepts, old(db.log), cfg.Texts(cuts.batches))
                       == Send(db.accepts, db.log, cfg.Texts(rest.batches))
        decreases |currentBatch|
      {
        ghost var before := currentBatch;
        SplitEnds(before, cfg.Limit());
        var cutPos := CutLimit(|baseQuery|, |upsertQuery|);
        if cutPos < |currentBatch| {
          var p := RFind(currentBatch, cutPos);
          if p == -1 {
            return false;
          }
          cutPos := p + 2;
        } else {
          cutPos := |currentBatch|;
        }
        var batchValues := currentBatch[..cutPos];
        if batchValues[|batchValues| - 1] == ',' {
          batchValues := batchValues[..|batchValues| - 1];
        }
        currentBatch := currentBatch[cutPos..];
        FirstSent(cfg, before, batchValues, currentBatch);
        var sent := db.ExecuteQuery(baseQuery + " " + batchValues + upsertQuery);
        if !sent {
          return false;
        }
      }
      SplitEnds("", cfg.Limit());
      ok := true;
    }

    /** Counts the row, flushes when the count passes the packet size, then appends the row. */
    method Add(row: string) returns (ok: bool)
      requires Cfg().Valid()
      modifies this, db
      ensures Cfg() == old(Cfg()) && length == old(length) + |row|
      ensures ok ==> State() == AddRow(Cfg(), old(State()), row)
      ensures !ok ==> values == old(values) && old(db.log) <= db.log && length > db.maxPacketSize
    {
      length := length + |row|;
      if length > db.maxPacketSize {
        var sent := Execute();
        if !sent {
          return false;
        }
      }
      if values == "" {
        values := "(" + row + ")";
      } else {
        values := values + ",(" + row + ")";
      }
      ok := true;
    }
  }

  lemma SplitEnds(values: string, limit: nat)
    ensures values == "" ==> Split(values, limit) == Cuts([], true)
    ensures limit < |values| && RFind(values, limit) == -1 ==> Split(values, limit) == Cuts([], false)
  {
  }

  /** The first batch of a split is what one round of the loop takes off the front. */
  lemma {:induction false} FirstSent(cfg: Config, before: string, batch: string, rest: string)
    requires cfg.Valid() && before != ""
    requires var limit := cfg.Limit();
             if limit < |before|
             then var p := RFind(before, limit); p != -1 && batch == before[..p + 1] && rest == before[p + 2..]
             else batch == WithoutComma(before) && rest == ""
    ensures var cuts, later := Split(before, cfg.Limit()), Split(rest, cfg.Limit());
            && cuts.complete == later.complete
            && cfg.Texts(cuts.batches) == [cfg.Text(batch)] + cfg.Texts(later.batches)
  {
    hide RFind, CutLimit, Split, Config.Texts, Config.Text;
    SplitStep(before, cfg.Limit(), batch, rest);
    TextsStep(cfg, batch, Split(rest, cfg.Limit()).batches);
  }

  lemma {:induction false} SplitStep(before: string, limit: nat, batch: string, rest: string)
    requires before != ""
    requires if limit < |before|
             then var p := RFind(before, limit); p != -1 && batch == before[..p + 1] && rest == before[p + 2..]
             else batch == WithoutComma(before) && rest == ""
    ensures Split(before, limit) == var later := Split(rest, limit); Cuts([batch] + later.batches, later.complete)
  {
    hide RFind, Split, WithoutComma;
    SplitOnce(before, limit);
    SplitEnds(rest, limit);
    if limit < |before| {
      CommaDropped(before, RFind(before, limit));
    } else {
      assert [batch] + [] == [batch];
    }
  }

  lemma {:induction false} SplitOnce(values: string, limit: nat)
    requires values != ""
    ensures |values| <= limit ==> Split(values, limit) == Cuts([WithoutComma(values)], true)
    ensures limit < |values| ==>
              var p := RFind(values, limit);
              p != -1 ==>
                var rest := Split(values[p + 2..], limit);
                Split(values, limit) == Cuts([WithoutComma(values[..p + 2])] + rest.batches, rest.complete)
  {
    hide RFind, WithoutComma;
  }

  lemma CommaDropped(s: string, p: int)
    requires Boundary(s, p)
    ensures WithoutComma(s[..p + 2]) == s[..p + 1]
  {
    assert s[..p + 2][p + 1] == ',' && s[..p + 2][..p + 1] == s[..p + 1];
  }

  lemma {:induction false} TextsStep(cfg: Config, batch: string, later: seq<string>)
    ensures cfg.Texts([batch] + later) == [cfg.Text(batch)] + cfg.Texts(later)
  {
  }

  // ---------- a whole run ----------

  function Total(rows: seq<string>): (n: nat) {
    if rows == [] then 0 else Total(rows[..|rows| - 1]) + |rows[|rows| - 1]|
  }

  /** The object after every row was added with success. */
  function AddAll(cfg: Config, rows: seq<string>): (r: Progress)
    requires cfg.Valid()
  {
    if rows == [] then Progress("", |cfg.query|, [])
    else AddRow(cfg, AddAll(cfg, rows[..|rows| - 1]), rows[|rows| - 1])
  }

  lemma {:induction false} AddAllValues(cfg: Config, rows: seq<string>)
    requires cfg.Valid()
    ensures AddAll(cfg, rows).values == Values(rows) && AddAll(cfg, rows).length == |cfg.query| + Total(rows)
  {
    hide CutLimit, Split;
    if rows != [] {
      var older := rows[..|rows| - 1];
      AddAllValues(cfg, older);
      assert rows == older + [rows[|rows| - 1]];
      ValuesAppend(older, rows[|rows| - 1]);
      if older != [] { ValuesShape(older); }
    }
  }

  /** Every flush of the run found all its boundaries, as it must for the adds to succeed. */
  predicate FlushesComplete(cfg: Config, rows: seq<string>)
    requires cfg.Valid()
  {
    rows == [] ||
    var older := rows[..|rows| - 1];
    && FlushesComplete(cfg, older)
    && (|cfg.query| + Total(rows) > cfg.maxPacket ==> Split(Values(older), cfg.Limit()).complete)
  }

  /** A run flushes before its end exactly when it has a second row and outgrows the packet. */
  lemma {:induction false} FlushIff(cfg: Config, rows: seq<string>)
    requires cfg.Valid() && FlushesComplete(cfg, rows)
    ensures AddAll(cfg, rows).log == [] <==> |rows| <= 1 || |cfg.query| + Total(rows) <= cfg.maxPacket
  {
    hide CutLimit, Values, Split;
    NothingQueued(cfg);
    if rows != [] {
      var older := rows[..|rows| - 1];
      AddAllValues(cfg, older);
      FlushIff(cfg, older);
      if older == [] {
        NoValues();
      } else if |cfg.query| + Total(rows) > cfg.maxPacket {
        ValuesShape(older);
        SplitJoins(Values(older), cfg.Limit());
      }
    }
  }

  /**
   The log of a whole successful run, with the final execute, is one sending of its rows exactly
   when no flush came before: execute never clears the values, so a flush sends rows again.
   */
  lemma {:induction false} SentOnceIff(cfg: Config, rows: seq<string>)
    requires cfg.Valid() && FlushesComplete(cfg, rows)
    ensures AddAll(cfg, rows).values == Values(rows)
    ensures AddAll(cfg, rows).log + cfg.Queries(AddAll(cfg, rows).values) == cfg.Queries(Values(rows))
       <==> |rows| <= 1 || |cfg.query| + Total(rows) <= cfg.maxPacket
  {
    hide CutLimit, Values, Split, AddAll, Total;
    AddAllValues(cfg, rows);
    FlushIff(cfg, rows);
    var log, last := AddAll(cfg, rows).log, cfg.Queries(Values(rows));
    if log == [] {
      assert log + last == last;
    } else {
      assert |log + last| > |last|;
    }
  }

  lemma NothingQueued(cfg: Config)
    requires cfg.Valid()
    ensures cfg.Queries("") == []
  {
  }
}
