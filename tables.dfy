/** The tabular data store and the derived views over it: blank-row filtering
    after parsing, the default placeholder-to-column mapping and the
    foreign-layout test, the identity mapping for a generated template, the
    filtered view that keeps original positions, the sorted filter codes and
    the header search. */
module Tables {
  import opened Optional
  import opened Text
  import opened Seqs

  /** One parsed record: column name to cell text. */
  type Row = map<string, string>

  /** Placeholder key to column name. */
  type Mapping = map<string, string>

  datatype Table = Table(headers: seq<string>, rows: seq<Row>)

  /** `row[column] || ''`: a missing cell reads as "". */
  function Cell(row: Row, column: string): string {
    if column in row then row[column] else ""
  }

  /** `row[map[key]] || ''`: the cell the mapping names for `key`, or "" when
      `key` is not mapped. */
  function Lookup(m: Mapping, row: Row, key: string): string {
    if key in m then Cell(row, m[key]) else ""
  }

  // ---------------------------------------------------------------------
  // Blank-row filtering after parsing

  /** Some declared column of `row` holds text other than whitespace. */
  predicate HasContent(headers: seq<string>, row: Row) {
    exists h :: h in headers && h in row && Trim(row[h]) != ""
  }

  /** The rows kept after parsing: those with content under some header. */
  function KeepNonBlank(headers: seq<string>, rows: seq<Row>): (kept: seq<Row>)
    ensures forall row :: row in kept <==> row in rows && HasContent(headers, row)
    ensures Subsequence(kept, rows)
    ensures forall row :: multiset(kept)[row] == if HasContent(headers, row) then multiset(rows)[row] else 0
  {
    FilterCounts(rows, row => HasContent(headers, row));
    Filter(rows, row => HasContent(headers, row))
  }

  // ---------------------------------------------------------------------
  // The default mapping

  /** `PLACEHOLDER_TO_CSV_HEADER_MAP`, the placeholder-to-column table used
      when a table has the expected layout. Two keys ('oferta' and
      'nome_comercial') name the same column. */
  const DefaultMap: Mapping := map[
    "cabecalho" := "CABECALHO",
    "oferta" := "NOME_COMERCIAL",
    "nome_comercial" := "NOME_COMERCIAL",
    "oferta_digital" := "OFERTA_DIGITAL",
    "intervalo_vigencia" := "INTERVALO_VIGENCIA",
    "dt_inicio_vigencia" := "DT_INICIO_VIGENCIA",
    "dt_fim_vigencia" := "DT_FIM_VIGENCIA",
    "intervalo_comercializ" := "INTERVALO_COMERCIALIZ",
    "escalonamento_precos" := "ESCALONAMENTO_PRECOS",
    "sub_campo_area_abrangencia_fixa" := "SUB_CAMPO_AREA_ABRANGENCIA_FIXA",
    "codigo_oferta" := "CODIGO_ANATEL",
    "tecnologia_servicos" := "TECNOLOGIA_SERVICOS",
    "recomendacoes_uso" := "RECOMENDACOES_USO",
    "nome_agrupador_sva_scm_servicos_adicionais" := "NOME_AGRUPADOR_SVA_SCM_SERVICOS_ADICIONAIS",
    "ligacoes_stfc" := "LIGACOES_STFC",
    "qtde_franquia_scm_condicoes_bl" := "QTDE_FRANQUIA_SCM_CONDICOES_BL",
    "taxa_download" := "TAXA_DOWNLOAD",
    "taxa_transmissao_upload" := "TAXA_TRANSMISSAO_UPLOAD",
    "taxas_adicionais" := "TAXAS_ADICIONAIS",
    "valores_taxas_adicionais" := "VALORES_TAXAS_ADICIONAIS",
    "preco" := "PRECO",
    "precos_individuais_oferta_conjunta" := "PRECOS_INDIVIDUAIS_OFERTA_CONJUNTA",
    "reajuste" := "REAJUSTE",
    "periodo_fidelizacao" := "PERIODO_FIDELIZACAO",
    "multa_rescisao_antecipada" := "MULTA_RESCISAO_ANTECIPADA",
    "modalidade_contratacao" := "MODALIDADE_CONTRATACAO",
    "condicoes_pagamento" := "CONDICOES_PAGAMENTO",
    "educacao_consumo" := "EDUCACAO_CONSUMO",
    "canais_atendimento" := "CANAIS_ATENDIMENTO",
    "detalhes_oferta" := "DETALHES_OFERTA",
    "versionamento" := "VERSIONAMENTO",
    "link_etiqueta_padrao" := "LINK_ETIQUETA_PADRAO",
    "minutos_locais" := "MINUTOS_LIGACOES_LOCAIS",
    "minutos_longa_distancia" := "MINUTOS_LIGACOES_LDN",
    "servicos_inteligentes" := "SERVICOS_INTELIGENTES_INCLUSOS"
  ]

  /** `Object.values` of the default mapping, in declaration order: 35
      column names, `NOME_COMERCIAL` listed twice. */
  const DefaultHeaders: seq<string> := [
    "CABECALHO",
    "NOME_COMERCIAL",
    "NOME_COMERCIAL",
    "OFERTA_DIGITAL",
    "INTERVALO_VIGENCIA",
    "DT_INICIO_VIGENCIA",
    "DT_FIM_VIGENCIA",
    "INTERVALO_COMERCIALIZ",
    "ESCALONAMENTO_PRECOS",
    "SUB_CAMPO_AREA_ABRANGENCIA_FIXA",
    "CODIGO_ANATEL",
    "TECNOLOGIA_SERVICOS",
    "RECOMENDACOES_USO",
    "NOME_AGRUPADOR_SVA_SCM_SERVICOS_ADICIONAIS",
    "LIGACOES_STFC",
    "QTDE_FRANQUIA_SCM_CONDICOES_BL",
    "TAXA_DOWNLOAD",
    "TAXA_TRANSMISSAO_UPLOAD",
    "TAXAS_ADICIONAIS",
    "VALORES_TAXAS_ADICIONAIS",
    "PRECO",
    "PRECOS_INDIVIDUAIS_OFERTA_CONJUNTA",
    "REAJUSTE",
    "PERIODO_FIDELIZACAO",
    "MULTA_RESCISAO_ANTECIPADA",
    "MODALIDADE_CONTRATACAO",
    "CONDICOES_PAGAMENTO",
    "EDUCACAO_CONSUMO",
    "CANAIS_ATENDIMENTO",
    "DETALHES_OFERTA",
    "VERSIONAMENTO",
    "LINK_ETIQUETA_PADRAO",
    "MINUTOS_LIGACOES_LOCAIS",
    "MINUTOS_LIGACOES_LDN",
    "SERVICOS_INTELIGENTES_INCLUSOS"
  ]

  // ---------------------------------------------------------------------
  // The foreign-layout test

  /** How many of the loaded headers are among the default columns (a header
      listed twice in the file counts twice). */
  function MatchCount(headers: seq<string>): (n: nat)
    ensures n <= |headers|
  {
    |Filter(headers, h => h in DefaultHeaders)|
  }

  /** `matchCount < defaultHeaders.length * 0.7`, over the integers. */
  predicate IsForeignLayout(headers: seq<string>) {
    10 * MatchCount(headers) < 7 * |DefaultHeaders|
  }

  /** The threshold in whole headers: a file is foreign exactly when at most
      24 of its headers are default columns, because the 70% is taken of all
      35 listed values. */
  lemma ForeignLayoutThreshold(headers: seq<string>)
    ensures IsForeignLayout(headers) <==> MatchCount(headers) <= 24
  {
    assert |DefaultHeaders| == 35;
  }

  /** Leaving headers out of a file, wherever they stand, never turns a
      foreign file into a default-layout one. */
  lemma ForeignLayoutMonotone(fewer: seq<string>, headers: seq<string>)
    requires Subsequence(fewer, headers)
    ensures IsForeignLayout(headers) ==> IsForeignLayout(fewer)
  {
    FilterSubsequence(fewer, headers, h => h in DefaultHeaders);
  }

  // ---------------------------------------------------------------------
  // The mapping for a generated template

  /** `headers.reduce((acc, h) => { acc[h] = h; return acc; }, {})`. */
  function IdentityMap(headers: seq<string>): (m: Mapping)
  {
    map h | h in headers :: h
  }

  /** Under the identity mapping, each loaded header resolves to its own
      column, and nothing else is mapped. */
  lemma IdentityMapResolves(headers: seq<string>, row: Row, key: string)
    ensures key in IdentityMap(headers) <==> key in headers
    ensures Lookup(IdentityMap(headers), row, key) == if key in headers then Cell(row, key) else ""
  {
  }

  // ---------------------------------------------------------------------
  // The displayed rows

  /** A record together with its position in the loaded table. */
  datatype Indexed = Indexed(index: nat, row: Row)

  function WithIndex(rows: seq<Row>): seq<Indexed> {
    seq(|rows|, i requires 0 <= i < |rows| => Indexed(i, rows[i]))
  }

  /** A view of `rows`: each entry is the row at its recorded position, and
      positions strictly increase, so the view is in load order. */
  predicate InLoadOrder(rows: seq<Row>, view: seq<Indexed>) {
    && (forall j :: 0 <= j < |view| ==> view[j].index < |rows| && view[j].row == rows[view[j].index])
    && Increasing(view)
  }

  predicate Increasing(view: seq<Indexed>) {
    forall j, k :: 0 <= j < k < |view| ==> view[j].index < view[k].index
  }

  /** The first record of a view in load order has the least position. */
  lemma FirstIsLeast(view: seq<Indexed>)
    requires Increasing(view) && view != []
    ensures forall e :: e in view ==> view[0].index <= e.index
  {
    forall e | e in view ensures view[0].index <= e.index {
      var j :| 0 <= j < |view| && view[j] == e;
      if j > 0 {
        assert view[0].index < view[j].index;
      }
    }
  }

  /** The row's `column` is present and equals `code`. */
  predicate HasCode(row: Row, column: string, code: string) {
    column in row && row[column] == code
  }

  /** The rows whose `column` equals `code`, each with its original position. */
  function KeepCode(rows: seq<Row>, column: string, code: string): (view: seq<Indexed>)
    ensures InLoadOrder(rows, view)
    ensures forall i :: 0 <= i < |rows| ==> (Indexed(i, rows[i]) in view <==> HasCode(rows[i], column, code))
  {
    var all := WithIndex(rows);
    var p := (x: Indexed) => HasCode(x.row, column, code);
    var view := Filter(all, p);
    assert forall i :: 0 <= i < |rows| ==> all[i] == Indexed(i, rows[i]);
    FilterKeepsOrder(all, p);
    assert forall j :: 0 <= j < |view| ==> view[j].index < |rows| && view[j].row == rows[view[j].index] by {
      forall j | 0 <= j < |view| ensures view[j].index < |rows| && view[j].row == rows[view[j].index] {
        assert view[j] in all;
        var i :| 0 <= i < |all| && all[i] == view[j];
      }
    }
    view
  }

  lemma {:induction false} FilterKeepsOrder(s: seq<Indexed>, p: Indexed -> bool)
    requires Increasing(s)
    ensures Increasing(Filter(s, p))
    decreases |s|
  {
    if s != [] {
      var rest := Filter(s[1..], p);
      FilterKeepsOrder(s[1..], p);
      var r := Filter(s, p);
      if p(s[0]) {
        assert r == [s[0]] + rest;
        forall j, k | 0 <= j < k < |r| ensures r[j].index < r[k].index {
          assert r[k] == rest[k - 1];
          if j == 0 {
            assert rest[k - 1] in s[1..];
            var i :| 0 <= i < |s[1..]| && s[1..][i] == rest[k - 1];
            assert s[i + 1] == rest[k - 1];
          } else {
            assert r[j] == rest[j - 1];
          }
        }
      } else {
        assert r == rest;
      }
    }
  }

  /** All rows with their positions. */
  lemma WithIndexInLoadOrder(rows: seq<Row>)
    ensures InLoadOrder(rows, WithIndex(rows))
    ensures forall i :: 0 <= i < |rows| ==> Indexed(i, rows[i]) in WithIndex(rows)
  {
    assert forall i :: 0 <= i < |rows| ==> WithIndex(rows)[i] == Indexed(i, rows[i]);
  }

  /** The column the code filter reads in the later variant: the column
      mapped for 'codigo_oferta', when it is non-empty and the first row has
      it. */
  function CodeColumn(data: Table, m: Mapping): Option<string> {
    if "codigo_oferta" in m && m["codigo_oferta"] != "" && |data.rows| > 0 && m["codigo_oferta"] in data.rows[0]
    then Some(m["codigo_oferta"])
    else None
  }

  /** `displayedRows` of the later variant: all rows with their positions,
      restricted to the rows whose code equals `filter` when a filter is set
      and the code column is usable. */
  function Displayed(data: Option<Table>, m: Mapping, filter: string): (view: seq<Indexed>)
    ensures data.None? ==> view == []
    ensures data.Some? ==> InLoadOrder(data.value.rows, view)
    ensures data.Some? ==>
      forall i :: 0 <= i < |data.value.rows| ==>
        (Indexed(i, data.value.rows[i]) in view <==>
           filter == "" || CodeColumn(data.value, m).None?
           || HasCode(data.value.rows[i], CodeColumn(data.value, m).value, filter))
  {
    match data
    case None => []
    case Some(t) =>
      WithIndexInLoadOrder(t.rows);
      if filter == "" then WithIndex(t.rows)
      else match CodeColumn(t, m)
        case None => WithIndex(t.rows)
        case Some(column) => KeepCode(t.rows, column, filter)
  }

  /** The fixed code column of the earlier variant. */
  const AnatelColumn: string := "CODIGO_ANATEL"

  /** `displayedRows` of the earlier variant: the code column is fixed, and a
      row without it never matches a set filter. */
  function DisplayedFixed(data: Option<Table>, filter: string): (view: seq<Indexed>)
    ensures data.None? ==> view == []
    ensures data.Some? ==> InLoadOrder(data.value.rows, view)
    ensures data.Some? ==>
      forall i :: 0 <= i < |data.value.rows| ==>
        (Indexed(i, data.value.rows[i]) in view <==>
           filter == "" || HasCode(data.value.rows[i], AnatelColumn, filter))
  {
    match data
    case None => []
    case Some(t) =>
      WithIndexInLoadOrder(t.rows);
      if filter == "" then WithIndex(t.rows) else KeepCode(t.rows, AnatelColumn, filter)
  }

  // ---------------------------------------------------------------------
  // The filter codes

  predicate StrictlySorted(s: seq<string>) {
    forall j, k :: 0 <= j < k < |s| ==> LexLess(s[j], s[k])
  }

  /** Inserts `x` into a strictly sorted list, keeping it strictly sorted
      and without duplicates. */
  function Insert(x: string, s: seq<string>): (r: seq<string>)
    requires StrictlySorted(s)
    ensures StrictlySorted(r)
    ensures forall y :: y in r <==> y == x || y in s
    decreases |s|
  {
    if s == [] then [x]
    else if x == s[0] then s
    else if LexLess(x, s[0]) then
      assert forall k :: 0 <= k < |s| ==> LexLess(x, s[k]) by {
        forall k | 0 <= k < |s| ensures LexLess(x, s[k]) {
          if k > 0 { LexLessTransitive(x, s[0], s[k]); }
        }
      }
      [x] + s
    else
      LexLessTotal(x, s[0]);
      var rest := Insert(x, s[1..]);
      assert forall y :: y in rest ==> LexLess(s[0], y);
      [s[0]] + rest
  }

  /** `Array.from(new Set(values)).sort()`. */
  function SortDistinct(values: seq<string>): (r: seq<string>)
    ensures StrictlySorted(r)
    ensures forall y :: y in r <==> y in values
    decreases |values|
  {
    if values == [] then []
    else Insert(values[|values| - 1], SortDistinct(values[..|values| - 1]))
  }

  /** The non-empty values of `column`, row by row. */
  function ColumnValues(rows: seq<Row>, column: string): (vs: seq<string>)
    ensures forall v :: v in vs <==> v != "" && exists i :: 0 <= i < |rows| && HasCode(rows[i], column, v)
    decreases |rows|
  {
    if rows == [] then []
    else
      var rest := ColumnValues(rows[1..], column);
      assert forall i :: 1 <= i < |rows| ==> rows[i] == rows[1..][i - 1];
      if column in rows[0] && rows[0][column] != "" then [rows[0][column]] + rest else rest
  }

  /** `anatelCodes` of the later variant: the distinct non-empty codes in
      sorted order, or none when the code column is not usable. */
  function FilterCodes(data: Option<Table>, m: Mapping): (codes: seq<string>)
    ensures StrictlySorted(codes)
    ensures forall c :: c in codes <==>
      data.Some? && CodeColumn(data.value, m).Some? && c != ""
      && exists i :: 0 <= i < |data.value.rows| && HasCode(data.value.rows[i], CodeColumn(data.value, m).value, c)
  {
    match data
    case None => []
    case Some(t) =>
      match CodeColumn(t, m)
      case None => []
      case Some(column) => SortDistinct(ColumnValues(t.rows, column))
  }

  /** `anatelCodes` of the earlier variant, over the fixed code column. */
  function FilterCodesFixed(data: Option<Table>): (codes: seq<string>)
    ensures StrictlySorted(codes)
    ensures forall c :: c in codes <==>
      data.Some? && c != "" && exists i :: 0 <= i < |data.value.rows| && HasCode(data.value.rows[i], AnatelColumn, c)
  {
    match data
    case None => []
    case Some(t) => SortDistinct(ColumnValues(t.rows, AnatelColumn))
  }

  // ---------------------------------------------------------------------
  // The header search of the earlier variant

  predicate MatchesTerm(header: string, term: string) {
    Contains(ToLowerAscii(header), ToLowerAscii(term))
  }

  /** `headers.filter(h => h.toLowerCase().includes(term.toLowerCase()))`. */
  function SearchHeaders(headers: seq<string>, term: string): (shown: seq<string>)
    ensures forall h :: h in shown <==> h in headers && MatchesTerm(h, term)
    ensures Subsequence(shown, headers)
    ensures forall h :: multiset(shown)[h] == if MatchesTerm(h, term) then multiset(headers)[h] else 0
    ensures term == "" ==> shown == headers
  {
    FilterCounts(headers, h => MatchesTerm(h, term));
    if term == "" then
      assert forall i :: 0 <= i < |headers| ==> MatchesTerm(headers[i], term);
      FilterKeepsAll(headers, h => MatchesTerm(h, term));
      Filter(headers, h => MatchesTerm(h, term))
    else
      Filter(headers, h => MatchesTerm(h, term))
  }

  /** The search ignores ASCII case: two terms that lower-case alike show
      the same headers. */
  lemma SearchIgnoresCase(headers: seq<string>, term: string, other: string)
    requires ToLowerAscii(term) == ToLowerAscii(other)
    ensures SearchHeaders(headers, term) == SearchHeaders(headers, other)
  {
    assert |term| == |other|;
    FilterAgrees(headers, h => MatchesTerm(h, term), h => MatchesTerm(h, other));
  }
}
