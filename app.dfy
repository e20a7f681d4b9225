/** The table assembly of `app.py`: each registered unit (a name and its
    dashboard url) is looked up in the cache or fetched and parsed, its
    result is flattened into one row, a failure becomes an error row, and the
    rows are put into a table with the main columns first, sorted by unit
    name. The units are visited one after the other; fetching a url is an
    input that gives the parsed document or the text of an exception. */
module App {
  import opened Outcomes
  import opened Chars
  import opened Parser
  import opened Storage

  // ---------------------------------------------------------------------
  // Rows
  // ---------------------------------------------------------------------

  /** A table cell: missing (`None`), a string or a number. */
  datatype Cell = Null | Text(text: string) | Number(value: int)

  /** A row, as the dictionary it is built from: keys in insertion order. */
  type Row = seq<(string, Cell)>

  function TextCell(v: Option<string>): Cell {
    if v.Some? then Text(v.value) else Null
  }

  function NumberCell(v: Option<int>): Cell {
    if v.Some? then Number(v.value) else Null
  }

  /** The keys of a row, in order. */
  function Keys(row: Row): (ks: seq<string>)
    ensures |ks| == |row| && forall i :: 0 <= i < |row| ==> ks[i] == row[i].0
  {
    if row == [] then [] else [row[0].0] + Keys(row[1..])
  }

  /** The value under `key`; a key the row lacks reads as missing, as in the
      data frame. */
  function Get(row: Row, key: string): Cell {
    if row == [] then Null else if row[0].0 == key then row[0].1 else Get(row[1..], key)
  }

  /** The key of the sort: the `upa` cell's text. */
  function UpaOf(row: Row): string {
    match Get(row, "upa")
    case Text(s) => s
    case _ => ""
  }

  const FLAT_COLUMNS: seq<string> := [
    "upa", "url", "updated_at", "pacientes_unidade", "pacientes_regulacao", "pacientes_at_medico",
    "azul_pacientes", "azul_tempo_medio", "verde_pacientes", "verde_tempo_medio",
    "amarelo_pacientes", "amarelo_tempo_medio", "laranja_pacientes", "laranja_tempo_medio",
    "vermelho_pacientes", "vermelho_tempo_medio"
  ]

  const MAIN_COLUMNS: seq<string> :=
    ["upa", "updated_at", "pacientes_unidade", "pacientes_regulacao", "pacientes_at_medico"]

  /** The fixed part of a flattened row. */
  function HeadCells(upa: string, url: string, m: Metrics): Row {
    [("upa", Text(upa)), ("url", Text(url)), ("updated_at", TextCell(m.updatedAt)),
     ("pacientes_unidade", NumberCell(m.pacientesUnidade)),
     ("pacientes_regulacao", NumberCell(m.pacientesRegulacao)),
     ("pacientes_at_medico", NumberCell(m.pacientesAtMedico))]
  }

  /** The two cells of one colour: its count and its average wait, both
      missing when the table has no entry for it. */
  function ColorPair(m: Metrics, c: string): Row {
    var info := SlotOf(m, c);
    [(LowerAll(c) + "_pacientes", NumberCell(info.pacientes)),
     (LowerAll(c) + "_tempo_medio", TextCell(info.tempoMedio))]
  }

  /** The cells of the colours `cs`, in order. */
  function ColorCells(m: Metrics, cs: seq<string>): (r: Row)
    ensures |r| == 2 * |cs|
  {
    if cs == [] then [] else ColorCells(m, cs[..|cs| - 1]) + ColorPair(m, cs[|cs| - 1])
  }

  /** One more colour adds its two cells at the end. */
  lemma ColorCellsStep(m: Metrics, cs: seq<string>, i: nat)
    requires i < |cs|
    ensures ColorCells(m, cs[..i + 1]) == ColorCells(m, cs[..i]) + ColorPair(m, cs[i])
  {
    assert cs[..i + 1][..i] == cs[..i];
  }

  /** `_flatten_row(upa, url, data)`. */
  function Flat(upa: string, url: string, m: Metrics): (r: Row)
    ensures |r| == 16
  {
    HeadCells(upa, url, m) + ColorCells(m, COLORS)
  }

  /** `_flatten_row` as it runs: the fixed cells, then two cells per colour,
      in `COLORS` order. */
  method FlattenRow(upa: string, url: string, m: Metrics) returns (row: Row)
    ensures row == Flat(upa, url, m)
  {
    var cells: Row := [];
    var i := 0;
    while i < |COLORS|
      invariant 0 <= i <= |COLORS|
      invariant cells == ColorCells(m, COLORS[..i])
    {
      var cor := COLORS[i];
      var info := SlotOf(m, cor);
      var count := (LowerAll(cor) + "_pacientes", NumberCell(info.pacientes));
      var wait := (LowerAll(cor) + "_tempo_medio", TextCell(info.tempoMedio));
      assert cells + [count] + [wait] == ColorCells(m, COLORS[..i + 1]) by {
        ColorCellsStep(m, COLORS, i);
      }
      cells := cells + [count];
      cells := cells + [wait];
      i := i + 1;
    }
    assert cells == ColorCells(m, COLORS) by {
      assert COLORS[..i] == COLORS;
    }
    row := HeadCells(upa, url, m) + cells;
  }

  /** One missing cell per column of `cols`, in order. */
  function NullCells(cols: seq<string>): (r: Row)
    ensures |r| == |cols|
    ensures forall i :: 0 <= i < |r| ==> r[i] == (cols[i], Null)
  {
    if cols == [] then [] else [(cols[0], Null)] + NullCells(cols[1..])
  }

  /** The row of a unit whose fetch raised: the name and the url, every
      other column of a flattened row missing, and the exception's text
      under `erro`. */
  function ErrorRow(upa: string, url: string, err: string): (r: Row)
    ensures |r| == 17
    ensures r[0] == ("upa", Text(upa)) && r[1] == ("url", Text(url)) && r[16] == ("erro", Text(err))
    ensures forall i :: 2 <= i < 16 ==> r[i].1 == Null
  {
    [("upa", Text(upa)), ("url", Text(url))] + NullCells(FLAT_COLUMNS[2..]) + [("erro", Text(err))]
  }

  /** The error row has the columns of a flattened row, then `erro`. */
  lemma ErrorKeys(upa: string, url: string, err: string)
    ensures Keys(ErrorRow(upa, url, err)) == FLAT_COLUMNS + ["erro"]
  {
    var r, cs := ErrorRow(upa, url, err), FLAT_COLUMNS + ["erro"];
    var nulls := NullCells(FLAT_COLUMNS[2..]);
    assert r == [("upa", Text(upa)), ("url", Text(url))] + nulls + [("erro", Text(err))];
    forall i | 0 <= i < 17
      ensures r[i].0 == cs[i]
    {
      if 2 <= i < 16 {
        assert r[i] == nulls[i - 2];
      }
    }
  }

  lemma LowerWord(s: string, t: string)
    requires |s| == |t| && forall i :: 0 <= i < |s| ==> Lower(s[i]) == t[i]
    ensures LowerAll(s) == t
  {
  }

  const LOWER_COLORS: seq<string> := ["azul", "verde", "amarelo", "laranja", "vermelho"]

  /** The colour names in lower case, as they appear in the column names. */
  lemma LowerColors(j: nat)
    requires j < |COLORS|
    ensures LowerAll(COLORS[j]) == LOWER_COLORS[j]
  {
    if j == 0 { LowerWord("AZUL", "azul"); }
    else if j == 1 { LowerWord("VERDE", "verde"); }
    else if j == 2 { LowerWord("AMARELO", "amarelo"); }
    else if j == 3 { LowerWord("LARANJA", "laranja"); }
    else { LowerWord("VERMELHO", "vermelho"); }
  }

  /** The cells of the `k`-th colour sit at positions `2k` and `2k + 1`. */
  lemma {:induction false} ColorCellsAt(m: Metrics, cs: seq<string>, k: nat)
    requires k < |cs|
    ensures ColorCells(m, cs)[2 * k] == (LowerAll(cs[k]) + "_pacientes", NumberCell(SlotOf(m, cs[k]).pacientes))
    ensures ColorCells(m, cs)[2 * k + 1] == (LowerAll(cs[k]) + "_tempo_medio", TextCell(SlotOf(m, cs[k]).tempoMedio))
    decreases |cs|
  {
    var front := cs[..|cs| - 1];
    if k < |cs| - 1 {
      ColorCellsAt(m, front, k);
      assert front[k] == cs[k];
    }
  }

  /** The `k`-th colour's cells are named after it and hold its count and
      its wait, both missing when the table has no entry for it. */
  lemma FlatColor(upa: string, url: string, m: Metrics, k: nat)
    requires k < |COLORS|
    ensures Flat(upa, url, m)[6 + 2 * k] ==
      (LOWER_COLORS[k] + "_pacientes", NumberCell(SlotOf(m, COLORS[k]).pacientes))
    ensures Flat(upa, url, m)[7 + 2 * k] ==
      (LOWER_COLORS[k] + "_tempo_medio", TextCell(SlotOf(m, COLORS[k]).tempoMedio))
    ensures COLORS[k] !in m.classificacoes ==>
      Flat(upa, url, m)[6 + 2 * k].1 == Null && Flat(upa, url, m)[7 + 2 * k].1 == Null
  {
    ColorCellsAt(m, COLORS, k);
    LowerColors(k);
  }

  /** The colour columns are the lower-cased colour names with their
      suffixes. */
  lemma ColumnNames(k: nat)
    requires k < |COLORS|
    ensures FLAT_COLUMNS[6 + 2 * k] == LOWER_COLORS[k] + "_pacientes"
    ensures FLAT_COLUMNS[7 + 2 * k] == LOWER_COLORS[k] + "_tempo_medio"
  {
    if k == 0 {
      assert "azul" + "_pacientes" == "azul_pacientes" && "azul" + "_tempo_medio" == "azul_tempo_medio";
    }
    else if k == 1 {
      assert "verde" + "_pacientes" == "verde_pacientes" && "verde" + "_tempo_medio" == "verde_tempo_medio";
    }
    else if k == 2 {
      assert "amarelo" + "_pacientes" == "amarelo_pacientes" && "amarelo" + "_tempo_medio" == "amarelo_tempo_medio";
    }
    else if k == 3 {
      assert "laranja" + "_pacientes" == "laranja_pacientes" && "laranja" + "_tempo_medio" == "laranja_tempo_medio";
    }
    else {
      assert "vermelho" + "_pacientes" == "vermelho_pacientes" && "vermelho" + "_tempo_medio" == "vermelho_tempo_medio";
    }
  }

  lemma HeadKeys(upa: string, url: string, m: Metrics, i: nat)
    requires i < 6
    ensures Flat(upa, url, m)[i].0 == FLAT_COLUMNS[i]
  {
    assert Flat(upa, url, m)[i] == HeadCells(upa, url, m)[i];
  }

  lemma ColorKeyAt(upa: string, url: string, m: Metrics, i: nat)
    requires 6 <= i < 16
    ensures Flat(upa, url, m)[i].0 == FLAT_COLUMNS[i]
  {
    var k := (i - 6) / 2;
    FlatColor(upa, url, m, k);
    ColumnNames(k);
  }

  lemma FlatKeys(upa: string, url: string, m: Metrics, err: string)
    ensures Keys(Flat(upa, url, m)) == FLAT_COLUMNS
    ensures Keys(ErrorRow(upa, url, err)) == Keys(Flat(upa, url, m)) + ["erro"]
  {
    var ks := Keys(Flat(upa, url, m));
    forall i | 0 <= i < 16
      ensures ks[i] == FLAT_COLUMNS[i]
    {
      if i < 6 {
        HeadKeys(upa, url, m, i);
      } else {
        ColorKeyAt(upa, url, m, i);
      }
    }
    ErrorKeys(upa, url, err);
  }

  // ---------------------------------------------------------------------
  // One unit
  // ---------------------------------------------------------------------

  /** What visiting one unit gives: its row and the cache map afterwards. */
  datatype Visit = Visit(row: Row, cache: map<string, Item>)

  /** `_fetch_one(upa, url, ttl)` on the map `m`, at time `now`, with a
      failure turned into the error row the caller builds. */
  function VisitOne(upa: string, url: string, m: map<string, Item>, ttl: int, now: int,
                    fetch: string -> Result<Document, string>): (v: Visit)
    ensures forall u :: u != url ==> (u in v.cache <==> u in m) && (u in m ==> v.cache[u] == m[u])
  {
    match Lookup(m, url, ttl, now)
    case Some(d) => Visit(Flat(upa, url, d), m)
    case None =>
      match fetch(url)
      case Err(e) => Visit(ErrorRow(upa, url, e), m)
      case Ok(doc) =>
        var parsed := Parse(doc);
        Visit(Flat(upa, url, parsed), Store(m, url, parsed, now))
  }

  /** `_fetch_one`: a fresh cached result is flattened without fetching or
      writing; otherwise the page is fetched and parsed, the parse is cached
      under the url, and that same parse is flattened. An exception of the
      fetch leaves the cache as it was. */
  method FetchOne(upa: string, url: string, ttl: int, now: int, cache: Cache,
                  fetch: string -> Result<Document, string>) returns (r: Result<Row, string>)
    modifies cache
    ensures var hit := Lookup(old(cache.Load()), url, ttl, now);
      && (hit.Some? ==> r == Ok(Flat(upa, url, hit.value)) && cache.file == old(cache.file))
      && (hit.None? && fetch(url).Err? ==> r == Err(fetch(url).error) && cache.file == old(cache.file))
      && (hit.None? && fetch(url).Ok? ==>
            r == Ok(Flat(upa, url, Parse(fetch(url).value))) &&
            cache.file == Stored(Store(old(cache.Load()), url, Parse(fetch(url).value), now)))
    ensures var v := VisitOne(upa, url, old(cache.Load()), ttl, now, fetch);
      && cache.Load() == v.cache
      && v.row == (if r.Ok? then r.value else ErrorRow(upa, url, r.error))
  {
    ghost var m := cache.Load();
    var cached := cache.GetCached(url, ttl, now);
    if cached.Some? {
      var hitRow := FlattenRow(upa, url, cached.value);
      r := Ok(hitRow);
    } else {
      var res := fetch(url);
      if res.Err? {
        r := Err(res.error);
      } else {
        var parsed := ParseDashboard(res.value);
        cache.SetCached(url, parsed, now);
        var row := FlattenRow(upa, url, parsed);
        r := Ok(row);
      }
    }
    VisitOneOutcome(upa, url, m, ttl, now, fetch, r, cache.Load());
  }

  /** The three outcomes of `_fetch_one` are those of `VisitOne`. */
  lemma VisitOneOutcome(upa: string, url: string, m: map<string, Item>, ttl: int, now: int,
                        fetch: string -> Result<Document, string>, r: Result<Row, string>,
                        after: map<string, Item>)
    requires var hit := Lookup(m, url, ttl, now);
      && (hit.Some? ==> r == Ok(Flat(upa, url, hit.value)) && after == m)
      && (hit.None? && fetch(url).Err? ==> r == Err(fetch(url).error) && after == m)
      && (hit.None? && fetch(url).Ok? ==>
            r == Ok(Flat(upa, url, Parse(fetch(url).value))) &&
            after == Store(m, url, Parse(fetch(url).value), now))
    ensures var v := VisitOne(upa, url, m, ttl, now, fetch);
      && after == v.cache
      && v.row == (if r.Ok? then r.value else ErrorRow(upa, url, r.error))
  {
  }

  // ---------------------------------------------------------------------
  // All units
  // ---------------------------------------------------------------------

  datatype Collected = Collected(rows: seq<Row>, cache: map<string, Item>)

  /** The loop of `load_all_upas` over the units `items`, each visited by
      `visit` against the map the units before it left, starting from `m`. */
  function Sweep(items: seq<(string, string)>, m: map<string, Item>,
                 visit: (string, string, map<string, Item>) -> Visit): (c: Collected)
    ensures |c.rows| == |items|
  {
    if items == [] then Collected([], m)
    else
      var prev := Sweep(items[..|items| - 1], m, visit);
      var item := items[|items| - 1];
      var v := visit(item.0, item.1, prev.cache);
      Collected(prev.rows + [v.row], v.cache)
  }

  /** Visiting one more unit extends the sweep by its row. */
  lemma SweepStep(items: seq<(string, string)>, m: map<string, Item>,
                  visit: (string, string, map<string, Item>) -> Visit, j: nat)
    requires j < |items|
    ensures var prev := Sweep(items[..j], m, visit);
      var v := visit(items[j].0, items[j].1, prev.cache);
      Sweep(items[..j + 1], m, visit) == Collected(prev.rows + [v.row], v.cache)
  {
    assert items[..j + 1][..j] == items[..j];
  }

  /** The `i`-th row is the visit of the `i`-th unit against the map the
      units before it left. */
  lemma {:induction false} SweepRowAt(items: seq<(string, string)>, m: map<string, Item>,
                                      visit: (string, string, map<string, Item>) -> Visit, i: nat)
    requires i < |items|
    ensures Sweep(items, m, visit).rows[i] == visit(items[i].0, items[i].1, Sweep(items[..i], m, visit).cache).row
    decreases |items|
  {
    var front := items[..|items| - 1];
    if i < |items| - 1 {
      SweepRowAt(front, m, visit, i);
      assert front[i] == items[i] && front[..i] == items[..i];
    } else {
      assert front == items[..i];
    }
  }

  /** `_fetch_one` on the map it is given, as the visit of one unit. */
  function Visitor(ttl: int, now: int, fetch: string -> Result<Document, string>):
    (string, string, map<string, Item>) -> Visit
  {
    (upa, url, c) => VisitOne(upa, url, c, ttl, now, fetch)
  }

  /** The rows of the units `items`, visited in order from the map `m`. */
  function Collect(items: seq<(string, string)>, m: map<string, Item>, ttl: int, now: int,
                   fetch: string -> Result<Document, string>): (c: Collected)
    ensures |c.rows| == |items|
  {
    Sweep(items, m, Visitor(ttl, now, fetch))
  }

  /** The collection of `items` is that of all but the last unit, extended
      by the last unit's visit. */
  lemma CollectLast(items: seq<(string, string)>, m: map<string, Item>, ttl: int, now: int,
                    fetch: string -> Result<Document, string>)
    requires items != []
    ensures var prev := Collect(items[..|items| - 1], m, ttl, now, fetch);
      var item := items[|items| - 1];
      var v := VisitOne(item.0, item.1, prev.cache, ttl, now, fetch);
      Collect(items, m, ttl, now, fetch) == Collected(prev.rows + [v.row], v.cache)
  {
  }

  /** Visiting one more unit extends the collection by its row. */
  lemma CollectStep(items: seq<(string, string)>, m: map<string, Item>, ttl: int, now: int,
                    fetch: string -> Result<Document, string>, j: nat)
    requires j < |items|
    ensures var prev := Collect(items[..j], m, ttl, now, fetch);
      var v := VisitOne(items[j].0, items[j].1, prev.cache, ttl, now, fetch);
      Collect(items[..j + 1], m, ttl, now, fetch) == Collected(prev.rows + [v.row], v.cache)
  {
    SweepStep(items, m, Visitor(ttl, now, fetch), j);
  }

  /** The data frame: its columns and its rows. */
  datatype Table = Table(columns: seq<string>, rows: seq<Row>)

  /** `ks` added to `acc`, each key not yet present once, in order. */
  function AddKeys(acc: seq<string>, ks: seq<string>): (r: seq<string>)
    ensures forall k :: k in r <==> k in acc || k in ks
    decreases |ks|
  {
    if ks == [] then acc else AddKeys(if ks[0] in acc then acc else acc + [ks[0]], ks[1..])
  }

  /** The columns of a data frame built from `rows`: every key of every
      row, in order of first appearance. */
  function KeyUnion(rows: seq<Row>): (r: seq<string>)
    ensures forall i, k :: 0 <= i < |rows| && k in Keys(rows[i]) ==> k in r
  {
    if rows == [] then []
    else
      var front := rows[..|rows| - 1];
      assert forall i :: 0 <= i < |front| ==> front[i] == rows[i];
      AddKeys(KeyUnion(front), Keys(rows[|rows| - 1]))
  }

  /** `[c for c in cs if c not in main]`. */
  function Without(cs: seq<string>, main: seq<string>): (r: seq<string>)
    ensures forall i :: 0 <= i < |r| ==> r[i] in cs && r[i] !in main
    ensures forall c :: c in cs && c !in main ==> c in r
  {
    if cs == [] then []
    else (if cs[0] in main then [] else [cs[0]]) + Without(cs[1..], main)
  }

  /** The data frame of the collected rows with the main columns first,
      sorted by unit name; selecting a main column the frame lacks raises
      `KeyError`, which is what an empty registry gives. */
  function Tabulate(rows: seq<Row>): (r: Result<Table, string>)
    ensures rows == [] ==> r.Err?
    ensures r.Ok? ==> |MAIN_COLUMNS| <= |r.value.columns| && r.value.columns[..|MAIN_COLUMNS|] == MAIN_COLUMNS
  {
    var cols := KeyUnion(rows);
    assert rows == [] ==> MAIN_COLUMNS[0] !in cols;
    if forall i :: 0 <= i < |MAIN_COLUMNS| ==> MAIN_COLUMNS[i] in cols then
      Ok(Table(MAIN_COLUMNS + Without(cols, MAIN_COLUMNS), SortByUpa(rows)))
    else Err("KeyError")
  }

  /** `order` lists each of the `n` units exactly once: the order in which
      their fetches complete. */
  predicate IsOrder(order: seq<nat>, n: nat) {
    && |order| == n
    && (forall j :: 0 <= j < n ==> order[j] < n)
    && (forall a, b :: 0 <= a < b < n ==> order[a] != order[b])
    && (forall i :: 0 <= i < n ==> i in order)
  }

  /** The units of `items` in the order `order`. */
  function Reorder(items: seq<(string, string)>, order: seq<nat>): (r: seq<(string, string)>)
    requires forall j :: 0 <= j < |order| ==> order[j] < |items|
    ensures |r| == |order| && forall j :: 0 <= j < |order| ==> r[j] == items[order[j]]
  {
    if order == [] then [] else [items[order[0]]] + Reorder(items, order[1..])
  }

  /** `load_all_upas(ttl)` at time `now`: every unit of the registry `items`
      is visited, in the order `order` in which the fetches complete, its
      row (or its error row) is appended, and the rows are tabulated. */
  method LoadAllUpas(items: seq<(string, string)>, order: seq<nat>, ttl: int, now: int, cache: Cache,
                     fetch: string -> Result<Document, string>) returns (table: Result<Table, string>)
    requires IsOrder(order, |items|)
    modifies cache
    ensures var c := Collect(Reorder(items, order), old(cache.Load()), ttl, now, fetch);
      table == Tabulate(c.rows) && cache.Load() == c.cache
  {
    ghost var m0 := cache.Load();
    ghost var visits := Reorder(items, order);
    var rows: seq<Row> := [];
    var j := 0;
    while j < |order|
      invariant 0 <= j <= |order|
      invariant Collected(rows, cache.Load()) == Collect(visits[..j], m0, ttl, now, fetch)
    {
      var (nome, url) := items[order[j]];
      CollectStep(visits, m0, ttl, now, fetch, j);
      var r := FetchOne(nome, url, ttl, now, cache, fetch);
      var row := if r.Ok? then r.value else ErrorRow(nome, url, r.error);
      rows := rows + [row];
      j := j + 1;
    }
    assert visits[..j] == visits;
    table := Tabulate(rows);
  }

  // ---------------------------------------------------------------------
  // Sorting by name
  // ---------------------------------------------------------------------

  /** Python's `<` on strings: lexicographic by code point. */
  predicate StrLt(a: string, b: string) {
    if a == [] then b != []
    else if b == [] then false
    else if a[0] != b[0] then a[0] < b[0]
    else StrLt(a[1..], b[1..])
  }

  lemma {:induction false} StrLtAsymmetric(a: string, b: string)
    requires StrLt(a, b)
    ensures !StrLt(b, a)
  {
    if a != [] && b != [] && a[0] == b[0] {
      StrLtAsymmetric(a[1..], b[1..]);
    }
  }

  lemma {:induction false} StrLtLeTrans(a: string, b: string, c: string)
    requires StrLt(a, b) && !StrLt(c, b)
    ensures StrLt(a, c)
  {
    if a != [] && c != [] && a[0] == b[0] && c[0] == b[0] {
      StrLtLeTrans(a[1..], b[1..], c[1..]);
    }
  }

  /** Items in non-decreasing order of `key`. */
  predicate SortedBy<T>(s: seq<T>, key: T -> string) {
    |s| <= 1 || (!StrLt(key(s[1]), key(s[0])) && SortedBy(s[1..], key))
  }

  /** `x` placed after every item whose key is not greater. */
  function Insert<T>(x: T, s: seq<T>, key: T -> string): (r: seq<T>)
    ensures |r| == |s| + 1
  {
    if s == [] then [x]
    else if StrLt(key(x), key(s[0])) then [x] + s
    else [s[0]] + Insert(x, s[1..], key)
  }

  /** A stable sort by `key`, as an insertion sort. */
  function SortBy<T>(s: seq<T>, key: T -> string): (r: seq<T>)
    ensures |r| == |s|
  {
    if s == [] then [] else Insert(s[|s| - 1], SortBy(s[..|s| - 1], key), key)
  }

  /** `sort_values("upa", kind="stable")`. */
  function SortByUpa(rows: seq<Row>): (r: seq<Row>)
    ensures SortedBy(r, UpaOf) && multiset(r) == multiset(rows)
  {
    SortByPermutes(rows, UpaOf);
    SortBy(rows, UpaOf)
  }

  /** The items whose key is `k`, in order. */
  function Named<T>(s: seq<T>, key: T -> string, k: string): seq<T> {
    if s == [] then [] else (if key(s[0]) == k then [s[0]] else []) + Named(s[1..], key, k)
  }

  lemma {:induction false} NamedAppend<T>(a: seq<T>, b: seq<T>, key: T -> string, k: string)
    ensures Named(a + b, key, k) == Named(a, key, k) + Named(b, key, k)
  {
    if a == [] {
      assert a + b == b;
    } else {
      var h := if key(a[0]) == k then [a[0]] else [];
      assert (a + b)[0] == a[0];
      assert (a + b)[1..] == a[1..] + b;
      NamedAppend(a[1..], b, key, k);
      assert Named(a + b, key, k) == h + Named(a[1..] + b, key, k);
      assert Named(a, key, k) == h + Named(a[1..], key, k);
      var x, y := Named(a[1..], key, k), Named(b, key, k);
      assert h + (x + y) == (h + x) + y;
    }
  }

  lemma NamedSingle<T>(x: T, key: T -> string, k: string)
    ensures Named([x], key, k) == if key(x) == k then [x] else []
  {
    assert [x][1..] == [];
  }

  lemma {:induction false} InsertPerm<T>(x: T, s: seq<T>, key: T -> string)
    ensures multiset(Insert(x, s, key)) == multiset(s) + multiset{x}
  {
    if s != [] && !StrLt(key(x), key(s[0])) {
      var rest := s[1..];
      InsertPerm(x, rest, key);
      assert s == [s[0]] + rest;
      assert Insert(x, s, key) == [s[0]] + Insert(x, rest, key);
    }
  }

  lemma {:induction false} InsertShape<T>(x: T, s: seq<T>, key: T -> string)
    ensures |Insert(x, s, key)| == |s| + 1
    ensures Insert(x, s, key)[0] == (if s == [] || StrLt(key(x), key(s[0])) then x else s[0])
  {
    if s != [] && !StrLt(key(x), key(s[0])) {
      InsertShape(x, s[1..], key);
    }
  }

  lemma {:induction false} InsertKeeps<T>(x: T, s: seq<T>, key: T -> string)
    requires SortedBy(s, key)
    ensures SortedBy(Insert(x, s, key), key)
    ensures multiset(Insert(x, s, key)) == multiset(s) + multiset{x}
    ensures |Insert(x, s, key)| == |s| + 1
  {
    InsertShape(x, s, key);
    InsertPerm(x, s, key);
    if s != [] {
      if StrLt(key(x), key(s[0])) {
        StrLtAsymmetric(key(x), key(s[0]));
      } else {
        var rest := s[1..];
        InsertKeeps(x, rest, key);
        InsertShape(x, rest, key);
        assert Insert(x, s, key) == [s[0]] + Insert(x, rest, key);
      }
    }
  }

  /** In a sorted sequence nothing after a key greater than `k` has key `k`. */
  lemma {:induction false} NoneNamedBelow<T>(s: seq<T>, key: T -> string, k: string)
    requires SortedBy(s, key) && s != [] && StrLt(k, key(s[0]))
    ensures Named(s, key, k) == []
    decreases |s|
  {
    if key(s[0]) == k {
      StrLtAsymmetric(k, key(s[0]));
    }
    if |s| > 1 {
      var rest := s[1..];
      StrLtLeTrans(k, key(s[0]), key(s[1]));
      NoneNamedBelow(rest, key, k);
    }
  }

  lemma InsertNamedFront<T>(x: T, s: seq<T>, key: T -> string, k: string)
    requires SortedBy(s, key) && s != [] && StrLt(key(x), key(s[0]))
    ensures Named(Insert(x, s, key), key, k) == Named(s, key, k) + (if key(x) == k then [x] else [])
  {
    assert Insert(x, s, key) == [x] + s;
    NamedSingle(x, key, k);
    NamedAppend([x], s, key, k);
    if key(x) == k {
      NoneNamedBelow(s, key, k);
    }
  }

  lemma {:induction false} InsertNamed<T>(x: T, s: seq<T>, key: T -> string, k: string)
    requires SortedBy(s, key)
    ensures Named(Insert(x, s, key), key, k) == Named(s, key, k) + (if key(x) == k then [x] else [])
  {
    var xs := if key(x) == k then [x] else [];
    if s == [] {
      NamedSingle(x, key, k);
    } else if StrLt(key(x), key(s[0])) {
      InsertNamedFront(x, s, key, k);
    } else {
      var rest := s[1..];
      var h := Named([s[0]], key, k);
      assert Insert(x, s, key) == [s[0]] + Insert(x, rest, key);
      calc {
        Named(Insert(x, s, key), key, k);
        { NamedAppend([s[0]], Insert(x, rest, key), key, k); }
        h + Named(Insert(x, rest, key), key, k);
        { InsertNamed(x, rest, key, k); }
        h + (Named(rest, key, k) + xs);
        { assert s == [s[0]] + rest; NamedAppend([s[0]], rest, key, k); }
        Named(s, key, k) + xs;
      }
    }
  }

  /** The sorted items are in order of key and are a permutation of the
      input. */
  lemma {:induction false} SortByPermutes<T>(s: seq<T>, key: T -> string)
    ensures SortedBy(SortBy(s, key), key)
    ensures multiset(SortBy(s, key)) == multiset(s)
    ensures |SortBy(s, key)| == |s|
  {
    SortBySorted(s, key);
    SortByPerm(s, key);
  }

  lemma {:induction false} SortBySorted<T>(s: seq<T>, key: T -> string)
    ensures SortedBy(SortBy(s, key), key)
  {
    if s != [] {
      var front := s[..|s| - 1];
      SortBySorted(front, key);
      InsertKeeps(s[|s| - 1], SortBy(front, key), key);
    }
  }

  lemma {:induction false} SortByPerm<T>(s: seq<T>, key: T -> string)
    ensures multiset(SortBy(s, key)) == multiset(s)
    ensures |SortBy(s, key)| == |s|
  {
    if s != [] {
      var front := s[..|s| - 1];
      var last := s[|s| - 1];
      SortByPerm(front, key);
      InsertPerm(last, SortBy(front, key), key);
      InsertShape(last, SortBy(front, key), key);
      assert s == front + [last];
    }
  }

  /** The sort is stable: the items of each key keep their input order. */
  lemma {:induction false} SortByStable<T>(s: seq<T>, key: T -> string, k: string)
    ensures Named(SortBy(s, key), key, k) == Named(s, key, k)
  {
    if s != [] {
      var front := s[..|s| - 1];
      var last := s[|s| - 1];
      SortByStable(front, key, k);
      SortByPermutes(front, key);
      InsertNamed(last, SortBy(front, key), key, k);
      assert s == front + [last];
      NamedAppend(front, [last], key, k);
      NamedSingle(last, key, k);
    }
  }

  /** No two items share a key. */
  ghost predicate UniqueKeys<T>(s: seq<T>, key: T -> string) {
    forall k :: |Named(s, key, k)| <= 1
  }

  lemma {:induction false} StrLtTotal(a: string, b: string)
    requires !StrLt(a, b) && !StrLt(b, a)
    ensures a == b
  {
    if a != [] && b != [] {
      StrLtTotal(a[1..], b[1..]);
      assert a == [a[0]] + a[1..] && b == [b[0]] + b[1..];
    }
  }

  /** The first item of a sorted sequence has the least key. */
  lemma {:induction false} HeadLeast<T>(s: seq<T>, key: T -> string, x: T)
    requires SortedBy(s, key) && x in s
    ensures !StrLt(key(x), key(s[0]))
  {
    if x == s[0] {
      if StrLt(key(x), key(x)) {
        StrLtAsymmetric(key(x), key(x));
      }
    } else {
      assert x in s[1..];
      HeadLeast(s[1..], key, x);
      if StrLt(key(x), key(s[0])) {
        StrLtLeTrans(key(x), key(s[0]), key(s[1]));
      }
    }
  }

  lemma {:induction false} NamedHas<T>(s: seq<T>, key: T -> string, j: nat)
    requires j < |s|
    ensures |Named(s, key, key(s[j]))| >= 1
  {
    if j > 0 {
      NamedHas(s[1..], key, j - 1);
    }
  }

  lemma {:induction false} NamedTwice<T>(s: seq<T>, key: T -> string, i: nat, j: nat)
    requires i < j < |s|
    ensures key(s[i]) == key(s[j]) ==> |Named(s, key, key(s[i]))| >= 2
  {
    if i == 0 {
      NamedHas(s[1..], key, j - 1);
    } else {
      NamedTwice(s[1..], key, i - 1, j - 1);
    }
  }

  /** In a sequence with unique keys no later item shares the first one's key. */
  lemma HeadKeyUnique<T>(s: seq<T>, key: T -> string)
    requires UniqueKeys(s, key) && s != []
    ensures forall j :: 0 < j < |s| ==> key(s[j]) != key(s[0])
  {
    forall j | 0 < j < |s|
      ensures key(s[j]) != key(s[0])
    {
      NamedTwice(s, key, 0, j);
    }
  }

  lemma UniqueTail<T>(s: seq<T>, key: T -> string)
    requires UniqueKeys(s, key) && s != []
    ensures UniqueKeys(s[1..], key)
  {
    forall k
      ensures |Named(s[1..], key, k)| <= 1
    {
      assert |Named(s, key, k)| <= 1;
    }
  }

  lemma SameItemsEmpty<T>(a: seq<T>, b: seq<T>)
    requires forall x :: x in a <==> x in b
    ensures a == [] <==> b == []
  {
    if a != [] {
      assert a[0] in b;
    }
    if b != [] {
      assert b[0] in a;
    }
  }

  /** Two sorted sequences with unique keys and the same items are equal:
      with distinct names, sorting fixes the order completely. */
  lemma {:induction false} SortedUnique<T>(a: seq<T>, b: seq<T>, key: T -> string)
    requires SortedBy(a, key) && SortedBy(b, key)
    requires UniqueKeys(a, key) && UniqueKeys(b, key)
    requires forall x :: x in a <==> x in b
    ensures a == b
    decreases |a|
  {
    SameItemsEmpty(a, b);
    if a != [] {
      assert a[0] in b && b[0] in a;
      HeadLeast(a, key, b[0]);
      HeadLeast(b, key, a[0]);
      StrLtTotal(key(a[0]), key(b[0]));
      HeadKeyUnique(a, key);
      HeadKeyUnique(b, key);
      assert a[0] == b[0];
      UniqueTail(a, key);
      UniqueTail(b, key);
      assert a == [a[0]] + a[1..] && b == [b[0]] + b[1..];
      forall x
        ensures x in a[1..] <==> x in b[1..]
      {
        if x in a[1..] {
          var j :| 0 <= j < |a[1..]| && a[1..][j] == x;
          assert a[j + 1] == x && key(a[j + 1]) != key(a[0]);
          assert x in b && x != b[0];
        }
        if x in b[1..] {
          var j :| 0 <= j < |b[1..]| && b[1..][j] == x;
          assert b[j + 1] == x && key(b[j + 1]) != key(b[0]);
          assert x in a && x != a[0];
        }
      }
      SortedUnique(a[1..], b[1..], key);
    }
  }

  // ---------------------------------------------------------------------
  // Properties of the whole run
  // ---------------------------------------------------------------------

  /** Visiting a unit touches the cache only under its own url. */
  lemma VisitKeepsOthers(upa: string, url: string, m: map<string, Item>, ttl: int, now: int,
                         fetch: string -> Result<Document, string>, u: string)
    requires u != url
    ensures var c := VisitOne(upa, url, m, ttl, now, fetch).cache;
      (u in c <==> u in m) && (u in m ==> c[u] == m[u])
  {
  }

  /** The cache entry under a url no unit of `items` has is never touched. */
  lemma {:induction false} CollectKeepsOthers(items: seq<(string, string)>, m: map<string, Item>, ttl: int,
                                              now: int, fetch: string -> Result<Document, string>, u: string)
    requires forall j :: 0 <= j < |items| ==> items[j].1 != u
    ensures var c := Collect(items, m, ttl, now, fetch).cache;
      (u in c <==> u in m) && (u in m ==> c[u] == m[u])
  {
    if items != [] {
      var front := items[..|items| - 1];
      CollectKeepsOthers(front, m, ttl, now, fetch, u);
      CollectLast(items, m, ttl, now, fetch);
      var prev := Collect(front, m, ttl, now, fetch);
      var item := items[|items| - 1];
      VisitKeepsOthers(item.0, item.1, prev.cache, ttl, now, fetch, u);
    }
  }

  /** What one unit yields depends only on its own cache entry. */
  lemma VisitLocal(upa: string, url: string, m1: map<string, Item>, m2: map<string, Item>, ttl: int, now: int,
                   fetch: string -> Result<Document, string>)
    requires (url in m1 <==> url in m2) && (url in m1 ==> m1[url] == m2[url])
    ensures VisitOne(upa, url, m1, ttl, now, fetch).row == VisitOne(upa, url, m2, ttl, now, fetch).row
  {
  }

  /** When the urls are distinct, as the keys of the registry are, the row of
      each unit is the one it would get alone against the initial cache:
      a hit is flattened, a parsed page is flattened, and a failing fetch
      gives the error row, whatever the other units did. */
  lemma RowPerUnit(items: seq<(string, string)>, m: map<string, Item>, ttl: int, now: int,
                   fetch: string -> Result<Document, string>, i: nat)
    requires i < |items|
    requires forall a, b :: 0 <= a < b < |items| ==> items[a].1 != items[b].1
    ensures Collect(items, m, ttl, now, fetch).rows[i] == VisitOne(items[i].0, items[i].1, m, ttl, now, fetch).row
  {
    var before := items[..i];
    var u := items[i].1;
    assert forall j :: 0 <= j < |before| ==> before[j].1 != u by {
      assert forall j :: 0 <= j < |before| ==> before[j] == items[j];
    }
    SweepRowAt(items, m, Visitor(ttl, now, fetch), i);
    CollectKeepsOthers(before, m, ttl, now, fetch, u);
    VisitLocal(items[i].0, u, Collect(before, m, ttl, now, fetch).cache, m, ttl, now, fetch);
  }

  // ---------------------------------------------------------------------
  // Columns
  // ---------------------------------------------------------------------

  /** `erro` is not a main column: no main column starts with `e`. */
  lemma ErroNotMain()
    ensures "erro" !in MAIN_COLUMNS
  {
    var ms := MAIN_COLUMNS;
    assert ms[0][0] == 'u' && ms[1][0] == 'u' && ms[2][0] == 'p' && ms[3][0] == 'p' && ms[4][0] == 'p';
  }

  lemma ColumnFacts()
    ensures PlainColumns(FLAT_COLUMNS) && "erro" !in MAIN_COLUMNS
    ensures forall i :: 0 <= i < |MAIN_COLUMNS| ==> MAIN_COLUMNS[i] in FLAT_COLUMNS
  {
  }

  lemma {:induction false} AddKeysPresent(acc: seq<string>, ks: seq<string>)
    requires forall i :: 0 <= i < |ks| ==> ks[i] in acc
    ensures AddKeys(acc, ks) == acc
    decreases |ks|
  {
    if ks != [] {
      AddKeysPresent(acc, ks[1..]);
    }
  }

  lemma {:induction false} AddKeysFresh(acc: seq<string>, ks: seq<string>)
    requires forall i, j :: 0 <= i < j < |ks| ==> ks[i] != ks[j]
    requires forall i :: 0 <= i < |ks| ==> ks[i] !in acc
    ensures AddKeys(acc, ks) == acc + ks
    decreases |ks|
  {
    if ks != [] {
      AddKeysFresh(acc + [ks[0]], ks[1..]);
      assert acc + [ks[0]] + ks[1..] == acc + ks;
    }
  }

  lemma {:induction false} AddKeysAppend(acc: seq<string>, a: seq<string>, b: seq<string>)
    ensures AddKeys(acc, a + b) == AddKeys(AddKeys(acc, a), b)
    decreases |a|
  {
    if a == [] {
      assert a + b == b;
    } else {
      assert (a + b)[0] == a[0] && (a + b)[1..] == a[1..] + b;
      AddKeysAppend(if a[0] in acc then acc else acc + [a[0]], a[1..], b);
    }
  }

  /** Every row has the columns `cols`, or those followed by `erro`. */
  predicate Shaped(rows: seq<Row>, cols: seq<string>) {
    forall x :: x in rows ==> Keys(x) == cols || Keys(x) == cols + ["erro"]
  }

  /** Some row has the error column. */
  ghost predicate HasError(rows: seq<Row>, cols: seq<string>) {
    exists x :: x in rows && Keys(x) == cols + ["erro"]
  }

  /** No column twice, and no column named `erro`. */
  predicate PlainColumns(cols: seq<string>) {
    && (forall i, j :: 0 <= i < j < |cols| ==> cols[i] != cols[j])
    && "erro" !in cols
  }

  /** One more row has the error column exactly when it or an earlier one does. */
  lemma HasErrorSnoc(front: seq<Row>, last: Row, cols: seq<string>)
    ensures HasError(front + [last], cols) <==> HasError(front, cols) || Keys(last) == cols + ["erro"]
  {
    var rows := front + [last];
    assert last in rows;
    assert forall x :: x in front ==> x in rows;
    assert forall x :: x in rows ==> x in front || x == last;
  }

  /** The columns of the data frame are the shared columns, then `erro`
      exactly when some row has it, whatever the order of the rows. */
  lemma {:induction false} UnionOfRows(rows: seq<Row>, cols: seq<string>)
    requires rows != [] && Shaped(rows, cols) && PlainColumns(cols)
    ensures KeyUnion(rows) == cols + (if HasError(rows, cols) then ["erro"] else [])
    decreases |rows|
  {
    var front := rows[..|rows| - 1];
    var last := rows[|rows| - 1];
    assert rows == front + [last];
    assert last in rows;
    HasErrorSnoc(front, last, cols);
    assert KeyUnion(rows) == AddKeys(KeyUnion(front), Keys(last));
    if front == [] {
      assert !HasError(front, cols);
      UnionFirst(last, cols);
    } else {
      assert Shaped(front, cols) by {
        assert forall x :: x in front ==> x in rows;
      }
      UnionOfRows(front, cols);
      UnionStep(KeyUnion(front), last, cols, HasError(front, cols));
    }
  }

  /** The columns of a first row are its keys. */
  lemma UnionFirst(last: Row, cols: seq<string>)
    requires PlainColumns(cols)
    requires Keys(last) == cols || Keys(last) == cols + ["erro"]
    ensures AddKeys([], Keys(last)) == Keys(last)
  {
    var ks := cols + ["erro"];
    assert forall i, j :: 0 <= i < j < |ks| ==> ks[i] != ks[j];
    AddKeysFresh([], Keys(last));
  }

  /** One more row adds `erro` at most, and only when it has the column. */
  lemma UnionStep(acc: seq<string>, last: Row, cols: seq<string>, hadError: bool)
    requires PlainColumns(cols)
    requires acc == cols + (if hadError then ["erro"] else [])
    requires Keys(last) == cols || Keys(last) == cols + ["erro"]
    ensures AddKeys(acc, Keys(last)) ==
      cols + (if hadError || Keys(last) == cols + ["erro"] then ["erro"] else [])
  {
    AddKeysPresent(acc, cols);
    if Keys(last) == cols {
      assert |Keys(last)| != |cols + ["erro"]|;
    } else {
      AddKeysAppend(acc, cols, ["erro"]);
      assert AddKeys(acc, ["erro"]) == if "erro" in acc then acc else acc + ["erro"];
      assert "erro" in acc <==> hadError;
    }
  }

  lemma {:induction false} WithoutAppend(a: seq<string>, b: seq<string>, main: seq<string>)
    ensures Without(a + b, main) == Without(a, main) + Without(b, main)
    decreases |a|
  {
    if a == [] {
      assert a + b == b;
    } else {
      assert (a + b)[0] == a[0] && (a + b)[1..] == a[1..] + b;
      WithoutAppend(a[1..], b, main);
    }
  }

  /** The table of rows sharing the columns `cols`, which hold the main
      ones, has the main columns, then the other shared columns in their
      order, then `erro` when some row has it. */
  /** With every main column present the frame is built, main columns first. */
  lemma TabulateFound(rows: seq<Row>)
    requires forall i :: 0 <= i < |MAIN_COLUMNS| ==> MAIN_COLUMNS[i] in KeyUnion(rows)
    ensures Tabulate(rows) ==
      Ok(Table(MAIN_COLUMNS + Without(KeyUnion(rows), MAIN_COLUMNS), SortByUpa(rows)))
  {
  }

  lemma TableColumns(rows: seq<Row>, cols: seq<string>)
    requires rows != [] && Shaped(rows, cols) && PlainColumns(cols)
    requires forall i :: 0 <= i < |MAIN_COLUMNS| ==> MAIN_COLUMNS[i] in cols
    ensures Tabulate(rows).Ok?
    ensures Tabulate(rows).value.columns ==
      MAIN_COLUMNS + Without(cols, MAIN_COLUMNS) + (if HasError(rows, cols) then ["erro"] else [])
  {
    var extra := if HasError(rows, cols) then ["erro"] else [];
    assert Without(cols + extra, MAIN_COLUMNS) == Without(cols, MAIN_COLUMNS) + extra by {
      WithoutAppend(cols, extra, MAIN_COLUMNS);
      ErroNotMain();
    }
    UnionOfRows(rows, cols);
    var ku := KeyUnion(rows);
    assert ku == cols + extra;
    assert forall i :: 0 <= i < |MAIN_COLUMNS| ==> MAIN_COLUMNS[i] in ku;
    TabulateFound(rows);
    var w := Without(cols, MAIN_COLUMNS);
    assert Tabulate(rows).value.columns == MAIN_COLUMNS + (w + extra);
    AppendAssoc(MAIN_COLUMNS, w, extra);
  }

  lemma AppendAssoc<T>(a: seq<T>, b: seq<T>, c: seq<T>)
    ensures a + (b + c) == a + b + c
  {
  }

  // ---------------------------------------------------------------------
  // The order of completion
  // ---------------------------------------------------------------------

  lemma FlatUpa(upa: string, url: string, m: Metrics)
    ensures UpaOf(Flat(upa, url, m)) == upa
  {
    assert Flat(upa, url, m)[0] == ("upa", Text(upa));
  }

  /** A unit's row is named after it and is a flattened or an error row. */
  lemma VisitRowShape(upa: string, url: string, m: map<string, Item>, ttl: int, now: int,
                      fetch: string -> Result<Document, string>)
    ensures var row := VisitOne(upa, url, m, ttl, now, fetch).row;
      UpaOf(row) == upa && (Keys(row) == FLAT_COLUMNS || Keys(row) == FLAT_COLUMNS + ["erro"])
  {
    var row := VisitOne(upa, url, m, ttl, now, fetch).row;
    match Lookup(m, url, ttl, now)
    case Some(d) =>
      assert row == Flat(upa, url, d);
      FlatUpa(upa, url, d);
      FlatKeys(upa, url, d, "");
    case None =>
      match fetch(url)
      case Err(e) =>
        assert row == ErrorRow(upa, url, e);
        ErrorKeys(upa, url, e);
      case Ok(doc) =>
        assert row == Flat(upa, url, Parse(doc));
        FlatUpa(upa, url, Parse(doc));
        FlatKeys(upa, url, Parse(doc), "");
  }

  lemma {:induction false} CollectShapes(items: seq<(string, string)>, m: map<string, Item>, ttl: int, now: int,
                                         fetch: string -> Result<Document, string>)
    ensures Shaped(Collect(items, m, ttl, now, fetch).rows, FLAT_COLUMNS)
    ensures forall j :: 0 <= j < |items| ==> UpaOf(Collect(items, m, ttl, now, fetch).rows[j]) == items[j].0
    decreases |items|
  {
    if items != [] {
      var front := items[..|items| - 1];
      var item := items[|items| - 1];
      CollectShapes(front, m, ttl, now, fetch);
      var prev := Collect(front, m, ttl, now, fetch);
      VisitRowShape(item.0, item.1, prev.cache, ttl, now, fetch);
      var rows := Collect(items, m, ttl, now, fetch).rows;
      CollectLast(items, m, ttl, now, fetch);
      forall j | 0 <= j < |items| - 1
        ensures UpaOf(rows[j]) == items[j].0
      {
        assert rows[j] == prev.rows[j] && front[j] == items[j];
      }
    }
  }

  lemma {:induction false} NamedNone<T>(s: seq<T>, key: T -> string, k: string)
    requires forall i :: 0 <= i < |s| ==> key(s[i]) != k
    ensures Named(s, key, k) == []
  {
    if s != [] {
      NamedNone(s[1..], key, k);
    }
  }

  lemma {:induction false} ApartUnique<T>(s: seq<T>, key: T -> string)
    requires forall a, b :: 0 <= a < b < |s| ==> key(s[a]) != key(s[b])
    ensures UniqueKeys(s, key)
  {
    forall k
      ensures |Named(s, key, k)| <= 1
    {
      if s != [] {
        NamedNone(s[1..], key, key(s[0]));
        ApartUnique(s[1..], key);
        assert |Named(s[1..], key, k)| <= 1;
      }
    }
  }

  /** The registry is a dictionary: no two units share a name or a url. */
  predicate DistinctUnits(items: seq<(string, string)>) {
    forall a, b :: 0 <= a < b < |items| ==> items[a].0 != items[b].0 && items[a].1 != items[b].1
  }

  /** The row each unit gets when visited alone against the cache map `m`. */
  function UnitRows(items: seq<(string, string)>, m: map<string, Item>, ttl: int, now: int,
                    fetch: string -> Result<Document, string>): (r: seq<Row>)
    ensures |r| == |items|
    ensures forall i :: 0 <= i < |items| ==> r[i] == VisitOne(items[i].0, items[i].1, m, ttl, now, fetch).row
  {
    if items == [] then []
    else [VisitOne(items[0].0, items[0].1, m, ttl, now, fetch).row] + UnitRows(items[1..], m, ttl, now, fetch)
  }

  /** Reordering distinct units keeps them distinct. */
  lemma ReorderDistinct(items: seq<(string, string)>, order: seq<nat>)
    requires DistinctUnits(items) && IsOrder(order, |items|)
    ensures DistinctUnits(Reorder(items, order))
  {
    var visits := Reorder(items, order);
    forall a, b | 0 <= a < b < |visits|
      ensures visits[a].0 != visits[b].0 && visits[a].1 != visits[b].1
    {
      var i, k := order[a], order[b];
      assert visits[a] == items[i] && visits[b] == items[k] && i != k;
      if i > k {
        assert items[k].0 != items[i].0 && items[k].1 != items[i].1;
      }
    }
  }

  /** In the order of completion, the `j`-th collected row is the row of
      the `j`-th unit to complete, taken alone. */
  lemma CollectIsUnits(items: seq<(string, string)>, order: seq<nat>, m: map<string, Item>, ttl: int, now: int,
                       fetch: string -> Result<Document, string>)
    requires DistinctUnits(items) && IsOrder(order, |items|)
    ensures var rows := Collect(Reorder(items, order), m, ttl, now, fetch).rows;
      |rows| == |order| &&
      forall j :: 0 <= j < |order| ==> rows[j] == UnitRows(items, m, ttl, now, fetch)[order[j]]
  {
    var visits := Reorder(items, order);
    ReorderDistinct(items, order);
    forall j | 0 <= j < |visits|
      ensures Collect(visits, m, ttl, now, fetch).rows[j] == UnitRows(items, m, ttl, now, fetch)[order[j]]
    {
      RowPerUnit(visits, m, ttl, now, fetch, j);
    }
  }

  /** Distinct units give rows with distinct names. */
  lemma CollectUnique(visits: seq<(string, string)>, m: map<string, Item>, ttl: int, now: int,
                      fetch: string -> Result<Document, string>)
    requires DistinctUnits(visits)
    ensures UniqueKeys(Collect(visits, m, ttl, now, fetch).rows, UpaOf)
  {
    var rows := Collect(visits, m, ttl, now, fetch).rows;
    CollectShapes(visits, m, ttl, now, fetch);
    assert forall a, b :: 0 <= a < b < |rows| ==> UpaOf(rows[a]) != UpaOf(rows[b]) by {
      forall a, b | 0 <= a < b < |rows|
        ensures UpaOf(rows[a]) != UpaOf(rows[b])
      {
        assert UpaOf(rows[a]) == visits[a].0 && UpaOf(rows[b]) == visits[b].0;
      }
    }
    ApartUnique(rows, UpaOf);
  }

  /** A sequence that lists `units` in the order `order` holds the same
      items as `units`. */
  lemma ReorderedItems<T>(rows: seq<T>, units: seq<T>, order: seq<nat>)
    requires IsOrder(order, |units|) && |rows| == |order|
    requires forall j :: 0 <= j < |order| ==> rows[j] == units[order[j]]
    ensures forall x :: x in rows <==> x in units
  {
    forall x
      ensures x in rows <==> x in units
    {
      if x in units {
        var i :| 0 <= i < |units| && units[i] == x;
        assert i in order;
        var j :| 0 <= j < |order| && order[j] == i;
        assert rows[j] == x;
      }
    }
  }

  /** Whatever the order of completion, the collected rows are the rows of
      the units taken alone, each unit's once, with unique names. */
  lemma ReorderedRows(items: seq<(string, string)>, order: seq<nat>, m: map<string, Item>, ttl: int, now: int,
                      fetch: string -> Result<Document, string>)
    requires DistinctUnits(items) && IsOrder(order, |items|)
    ensures var rows := Collect(Reorder(items, order), m, ttl, now, fetch).rows;
      && Shaped(rows, FLAT_COLUMNS)
      && UniqueKeys(rows, UpaOf)
      && forall x :: x in rows <==> x in UnitRows(items, m, ttl, now, fetch)
  {
    var visits := Reorder(items, order);
    var rows := Collect(visits, m, ttl, now, fetch).rows;
    var units := UnitRows(items, m, ttl, now, fetch);
    assert Shaped(rows, FLAT_COLUMNS) by {
      CollectShapes(visits, m, ttl, now, fetch);
    }
    assert UniqueKeys(rows, UpaOf) by {
      ReorderDistinct(items, order);
      CollectUnique(visits, m, ttl, now, fetch);
    }
    assert forall x :: x in rows <==> x in units by {
      CollectIsUnits(items, order, m, ttl, now, fetch);
      ReorderedItems(rows, units, order);
    }
  }

  /** Sequences with the same items and unique keys sort to the same
      sequence. */
  lemma SortSameItems<T>(a: seq<T>, b: seq<T>, key: T -> string)
    requires UniqueKeys(a, key) && UniqueKeys(b, key)
    requires forall x :: x in a <==> x in b
    ensures SortBy(a, key) == SortBy(b, key)
  {
    SortByPermutes(a, key);
    SortByPermutes(b, key);
    var sa := SortBy(a, key);
    var sb := SortBy(b, key);
    forall k
      ensures |Named(sa, key, k)| <= 1 && |Named(sb, key, k)| <= 1
    {
      SortByStable(a, key, k);
      SortByStable(b, key, k);
    }
    forall x
      ensures x in sa <==> x in sb
    {
      assert x in sa <==> x in multiset(sa);
      assert x in sb <==> x in multiset(sb);
      assert x in a <==> x in multiset(a);
      assert x in b <==> x in multiset(b);
    }
    SortedUnique(sa, sb, key);
  }

  /** Two collections of rows with the same items, unique names and the
      same columns give the same table. */
  lemma TabulateSameItems(rows1: seq<Row>, rows2: seq<Row>)
    requires rows1 != [] && rows2 != []
    requires Shaped(rows1, FLAT_COLUMNS) && Shaped(rows2, FLAT_COLUMNS)
    requires UniqueKeys(rows1, UpaOf) && UniqueKeys(rows2, UpaOf)
    requires forall x :: x in rows1 <==> x in rows2
    ensures Tabulate(rows1) == Tabulate(rows2)
  {
    assert SortByUpa(rows1) == SortByUpa(rows2) by {
      SortSameItems(rows1, rows2, UpaOf);
    }
    assert HasError(rows1, FLAT_COLUMNS) <==> HasError(rows2, FLAT_COLUMNS);
    assert Tabulate(rows1).Ok? && Tabulate(rows2).Ok? &&
           Tabulate(rows1).value.columns == Tabulate(rows2).value.columns by {
      ColumnFacts();
      TableColumns(rows1, FLAT_COLUMNS);
      TableColumns(rows2, FLAT_COLUMNS);
    }
  }

  /** With distinct names and urls, as in the registry, the table does not
      depend on the order in which the fetches complete: the stable sort by
      name puts the rows in the same order, and the columns are the same. */
  lemma OrderIrrelevant(items: seq<(string, string)>, order1: seq<nat>, order2: seq<nat>,
                        m: map<string, Item>, ttl: int, now: int, fetch: string -> Result<Document, string>)
    requires DistinctUnits(items) && IsOrder(order1, |items|) && IsOrder(order2, |items|)
    ensures Tabulate(Collect(Reorder(items, order1), m, ttl, now, fetch).rows) ==
            Tabulate(Collect(Reorder(items, order2), m, ttl, now, fetch).rows)
  {
    var rows1 := Collect(Reorder(items, order1), m, ttl, now, fetch).rows;
    var rows2 := Collect(Reorder(items, order2), m, ttl, now, fetch).rows;
    if items != [] {
      ReorderedRows(items, order1, m, ttl, now, fetch);
      ReorderedRows(items, order2, m, ttl, now, fetch);
      TabulateSameItems(rows1, rows2);
    }
  }

  /** For a registry with distinct names and urls, in any order of
      completion, the table holds exactly one row per unit, the row that unit
      gets taken alone, sorted by name. */
  lemma TableRows(items: seq<(string, string)>, order: seq<nat>, m: map<string, Item>, ttl: int, now: int,
                  fetch: string -> Result<Document, string>)
    requires DistinctUnits(items) && IsOrder(order, |items|) && items != []
    ensures var t := Tabulate(Collect(Reorder(items, order), m, ttl, now, fetch).rows);
      && t.Ok?
      && |t.value.rows| == |items|
      && SortedBy(t.value.rows, UpaOf)
      && (forall x :: x in t.value.rows <==> x in UnitRows(items, m, ttl, now, fetch))
  {
    var rows := Collect(Reorder(items, order), m, ttl, now, fetch).rows;
    var units := UnitRows(items, m, ttl, now, fetch);
    ReorderedRows(items, order, m, ttl, now, fetch);
    assert Tabulate(rows).Ok? by {
      ColumnFacts();
      TableColumns(rows, FLAT_COLUMNS);
    }
    SortByPermutes(rows, UpaOf);
    var sorted := SortByUpa(rows);
    forall x
      ensures x in sorted <==> x in units
    {
      assert x in sorted <==> x in multiset(sorted);
      assert x in rows <==> x in multiset(rows);
    }
  }

  lemma VisitFailed(upa: string, url: string, m: map<string, Item>, ttl: int, now: int,
                    fetch: string -> Result<Document, string>)
    requires Lookup(m, url, ttl, now).None? && fetch(url).Err?
    ensures VisitOne(upa, url, m, ttl, now, fetch).row == ErrorRow(upa, url, fetch(url).error)
  {
  }

  /** A unit whose cache misses and whose fetch raises has its error row,
      with the exception's text, in the table. */
  lemma FailedUnitRow(items: seq<(string, string)>, order: seq<nat>, m: map<string, Item>, ttl: int, now: int,
                      fetch: string -> Result<Document, string>, i: nat)
    requires DistinctUnits(items) && IsOrder(order, |items|) && i < |items|
    requires Lookup(m, items[i].1, ttl, now).None? && fetch(items[i].1).Err?
    ensures var t := Tabulate(Collect(Reorder(items, order), m, ttl, now, fetch).rows);
      t.Ok? && ErrorRow(items[i].0, items[i].1, fetch(items[i].1).error) in t.value.rows
  {
    TableRows(items, order, m, ttl, now, fetch);
    var units := UnitRows(items, m, ttl, now, fetch);
    var row := VisitOne(items[i].0, items[i].1, m, ttl, now, fetch).row;
    VisitFailed(items[i].0, items[i].1, m, ttl, now, fetch);
    assert units[i] == row;
    assert row in units;
  }

  /** The table has one row per unit, sorted by name, a permutation of the
      collected rows; its columns start with the main five, followed by every
      other key once. An empty registry raises `KeyError`. */
  lemma TableSpec(rows: seq<Row>, k: string)
    ensures rows == [] ==> Tabulate(rows).Err?
    ensures Tabulate(rows).Ok? ==>
      var t := Tabulate(rows).value;
      && t.columns[..|MAIN_COLUMNS|] == MAIN_COLUMNS
      && (forall i :: |MAIN_COLUMNS| <= i < |t.columns| ==> t.columns[i] !in MAIN_COLUMNS)
      && |t.rows| == |rows| && multiset(t.rows) == multiset(rows)
      && SortedBy(t.rows, UpaOf)
      && Named(t.rows, UpaOf, k) == Named(rows, UpaOf, k)
  {
    SortByPermutes(rows, UpaOf);
    SortByStable(rows, UpaOf, k);
    if rows == [] {
      assert MAIN_COLUMNS[0] !in KeyUnion(rows);
    }
  }
}
