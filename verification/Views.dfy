/**
 * The read side of the views (procedimentos/views.py): the search query
 * chain and its pagination, the related procedures of a detail page, the
 * quick search, and the decision report intake takes. The state changes
 * these views make are in Store.dfy.
 */
module Views {
  import opened Wrappers
  import opened Text
  import opened Seqs
  import opened Models

  const PageSize: nat := 10
  const RelatedLimit: nat := 5
  const QuickLimit: nat := 10
  const QuickMinLength: nat := 3

  function Min(a: nat, b: nat): nat
  {
    if a <= b then a else b
  }

  /**
   * The outcome of a query whose identifier parameter the ORM has to turn
   * into an integer: a non-numeric value makes it raise ValueError.
   */
  datatype Consulta<T> = Ok(value: T) | ValueError

  /** The OR of the four `icontains` lookups of the search. */
  predicate MatchesText(p: Procedimento, q: string)
  {
    IContains(p.titulo, q) || IContains(p.descricao, q) || IContains(p.solucao, q) || IContains(p.tags, q)
  }

  /**
   * The `categoria` parameter as the ORM reads it: absent when empty, else
   * `int()` of it; `None` stands for the `ValueError` a non-numeric value raises.
   */
  function CategoriaParam(categoria: string): (r: Option<Option<int>>)
    ensures r == Some(None) <==> categoria == ""
    ensures r.None? <==> categoria != "" && ParseInt(categoria).None?
    ensures r.Some? && r.value.Some? ==> ParseInt(categoria) == Some(r.value.value)
    ensures categoria != "" && AllSpace(categoria) ==> r.None?
  {
    if categoria == "" then Some(None)
    else match ParseInt(categoria)
      case None => None
      case Some(id) => Some(Some(id))
  }

  /** `filter(ativo=True)`, then the OR of the text lookups when `q` is given. */
  function EtapaTexto(procs: seq<Procedimento>, q: string): seq<Procedimento>
  {
    var ativos := Filter(Ativo, procs);
    if q != "" then Filter((p: Procedimento) => MatchesText(p, q), ativos) else ativos
  }

  /** `filter(categoria_id=...)` when a category is given. */
  function EtapaCategoria(s: seq<Procedimento>, categoria: Option<int>): seq<Procedimento>
  {
    if categoria.Some? then Filter((p: Procedimento) => p.categoria.id == categoria.value, s) else s
  }

  /** `filter(prioridade=...)` when a priority is given. */
  function EtapaPrioridade(s: seq<Procedimento>, prioridade: string): seq<Procedimento>
  {
    if prioridade != "" then Filter((p: Procedimento) => p.prioridade == prioridade, s) else s
  }

  /**
   * The queryset of the search view before pagination: active procedures,
   * then the text filter when `q` is given, then the category and priority
   * filters when given.
   */
  function FiltrarProcedimentos(procs: seq<Procedimento>, q: string, categoria: string, prioridade: string)
    : (r: Consulta<seq<Procedimento>>)
    ensures r.ValueError? <==> CategoriaParam(categoria).None?
  {
    match CategoriaParam(categoria)
    case None => ValueError
    case Some(cat) => Ok(EtapaPrioridade(EtapaCategoria(EtapaTexto(procs, q), cat), prioridade))
  }

  /** What a search result is: every given criterion holds, absent ones are ignored. */
  predicate Selecionado(p: Procedimento, q: string, categoria: Option<int>, prioridade: string)
  {
    && p.ativo
    && (q == "" || MatchesText(p, q))
    && (categoria.None? || p.categoria.id == categoria.value)
    && (prioridade == "" || p.prioridade == prioridade)
  }

  predicate SelecionadoTexto(p: Procedimento, q: string)
  {
    p.ativo && (q == "" || MatchesText(p, q))
  }

  predicate SelecionadoCategoria(p: Procedimento, q: string, categoria: Option<int>)
  {
    SelecionadoTexto(p, q) && (categoria.None? || p.categoria.id == categoria.value)
  }

  lemma EtapaTextoFiltra(procs: seq<Procedimento>, q: string)
    ensures EtapaTexto(procs, q) == Filter((p: Procedimento) => SelecionadoTexto(p, q), procs)
  {
    if q != "" {
      FilterFilter(Ativo, (p: Procedimento) => MatchesText(p, q), (p: Procedimento) => SelecionadoTexto(p, q), procs);
    } else {
      FilterCongruent(Ativo, (p: Procedimento) => SelecionadoTexto(p, q), procs);
    }
  }

  lemma EtapaCategoriaFiltra(procs: seq<Procedimento>, q: string, categoria: Option<int>)
    ensures EtapaCategoria(Filter((p: Procedimento) => SelecionadoTexto(p, q), procs), categoria) ==
            Filter((p: Procedimento) => SelecionadoCategoria(p, q, categoria), procs)
  {
    var g := (p: Procedimento) => SelecionadoTexto(p, q);
    var h := (p: Procedimento) => SelecionadoCategoria(p, q, categoria);
    if categoria.Some? {
      FilterFilter(g, (p: Procedimento) => p.categoria.id == categoria.value, h, procs);
    } else {
      FilterCongruent(g, h, procs);
    }
  }

  lemma EtapaPrioridadeFiltra(procs: seq<Procedimento>, q: string, categoria: Option<int>, prioridade: string)
    ensures EtapaPrioridade(Filter((p: Procedimento) => SelecionadoCategoria(p, q, categoria), procs), prioridade) ==
            Filter((p: Procedimento) => Selecionado(p, q, categoria, prioridade), procs)
  {
    var g := (p: Procedimento) => SelecionadoCategoria(p, q, categoria);
    var h := (p: Procedimento) => Selecionado(p, q, categoria, prioridade);
    if prioridade != "" {
      FilterFilter(g, (p: Procedimento) => p.prioridade == prioridade, h, procs);
    } else {
      FilterCongruent(g, h, procs);
    }
  }

  /** The chain of filters is one filter by the conjunction of the criteria, in store order. */
  lemma BuscaEhUmFiltro(procs: seq<Procedimento>, q: string, categoria: string, prioridade: string)
    requires CategoriaParam(categoria).Some?
    ensures FiltrarProcedimentos(procs, q, categoria, prioridade).value ==
            Filter((p: Procedimento) => Selecionado(p, q, CategoriaParam(categoria).value, prioridade), procs)
  {
    var cat := CategoriaParam(categoria).value;
    EtapaTextoFiltra(procs, q);
    EtapaCategoriaFiltra(procs, q, cat);
    EtapaPrioridadeFiltra(procs, q, cat, prioridade);
  }

  /**
   * Search results are exactly the store's procedures that meet the
   * criteria; they keep the store's order, so a store kept newest-updated
   * first gives results newest-updated first.
   */
  lemma BuscaCorreta(procs: seq<Procedimento>, q: string, categoria: string, prioridade: string)
    requires CategoriaParam(categoria).Some?
    ensures forall p :: p in FiltrarProcedimentos(procs, q, categoria, prioridade).value <==>
                        p in procs && Selecionado(p, q, CategoriaParam(categoria).value, prioridade)
    ensures IsSubsequence(FiltrarProcedimentos(procs, q, categoria, prioridade).value, procs)
    ensures SortedDescending((p: Procedimento) => p.atualizadoEm, procs) ==>
            SortedDescending((p: Procedimento) => p.atualizadoEm, FiltrarProcedimentos(procs, q, categoria, prioridade).value)
  {
    BuscaEhUmFiltro(procs, q, categoria, prioridade);
    var g := (p: Procedimento) => Selecionado(p, q, CategoriaParam(categoria).value, prioridade);
    FilterIsSubsequence(g, procs);
    if SortedDescending((p: Procedimento) => p.atualizadoEm, procs) {
      SubsequenceKeepsOrder((p: Procedimento) => p.atualizadoEm, Filter(g, procs), procs);
    }
  }

  /** With no criteria the search lists every active procedure, and nothing else. */
  lemma BuscaSemCriterios(procs: seq<Procedimento>)
    ensures FiltrarProcedimentos(procs, "", "", "") == Ok(Filter(Ativo, procs))
  {
    BuscaEhUmFiltro(procs, "", "", "");
    FilterCongruent((p: Procedimento) => Selecionado(p, "", None, ""), Ativo, procs);
  }

  /** `Paginator.num_pages` with 10 per page: an empty result still has one (empty) page. */
  function NumPages(count: nat): (n: nat)
    ensures n >= 1
    ensures count == 0 ==> n == 1
    ensures count > 0 ==> (n - 1) * PageSize < count <= n * PageSize
  {
    if count == 0 then 1 else (count + PageSize - 1) / PageSize
  }

  /** A page as the template receives it. */
  datatype Pagina<T> = Pagina(objetos: seq<T>, numero: nat, numPaginas: nat, temProxima: bool, temAnterior: bool)

  /** `paginator.get_page(n)` for a page number that exists. */
  function Paginar<T>(items: seq<T>, n: nat): (page: Pagina<T>)
    requires 1 <= n <= NumPages(|items|)
    ensures |page.objetos| <= PageSize
    ensures (n - 1) * PageSize + |page.objetos| <= |items|
    ensures forall k :: 0 <= k < |page.objetos| ==> page.objetos[k] == items[(n - 1) * PageSize + k]
    ensures n < NumPages(|items|) ==> |page.objetos| == PageSize
    ensures items != [] ==> page.objetos != []
    ensures page.temProxima <==> n * PageSize < |items|
    ensures page.temAnterior <==> n > 1
    ensures page.numero == n && page.numPaginas == NumPages(|items|)
  {
    var objetos := items[(n - 1) * PageSize .. Min(n * PageSize, |items|)];
    Pagina(objetos, n, NumPages(|items|), n < NumPages(|items|), n > 1)
  }

  /** The pages from `n` on, one after the other. */
  function PaginasDesde<T>(items: seq<T>, n: nat): seq<T>
    requires 1 <= n
    decreases NumPages(|items|) + 1 - n
  {
    if n > NumPages(|items|) then [] else Paginar(items, n).objetos + PaginasDesde(items, n + 1)
  }

  /** The pages partition the result: read in order they give every item once. */
  lemma {:induction false} PaginasCobrem<T>(items: seq<T>, n: nat)
    requires 1 <= n <= NumPages(|items|)
    ensures PaginasDesde(items, n) == items[(n - 1) * PageSize..]
    decreases NumPages(|items|) + 1 - n
  {
    var page := Paginar(items, n).objetos;
    var inicio, fim := (n - 1) * PageSize, n * PageSize;
    assert fim == inicio + PageSize;
    assert PaginasDesde(items, n) == page + PaginasDesde(items, n + 1);
    if n == NumPages(|items|) {
      assert |items| <= fim;
      assert page == items[inicio..];
    } else {
      PaginasCobrem(items, n + 1);
      assert page == items[inicio..fim];
      assert items[inicio..] == page + items[fim..];
    }
  }

  /** Same category as the procedure viewed, and active. */
  predicate MesmaCategoriaAtivo(x: Procedimento, atual: Procedimento)
  {
    x.categoria.id == atual.categoria.id && x.ativo
  }

  /** The candidates for "related": same category, active, not the procedure itself. */
  function Candidatos(procs: seq<Procedimento>, atual: Procedimento): seq<Procedimento>
  {
    Filter((x: Procedimento) => x.id != atual.id, Filter((x: Procedimento) => MesmaCategoriaAtivo(x, atual), procs))
  }

  /**
   * Any first `m` candidates are the first `m` rows of the store that qualify:
   * a qualifying row before one of them is among them.
   */
  lemma CandidatosPrimeiros(procs: seq<Procedimento>, atual: Procedimento, m: nat)
    requires m <= |Candidatos(procs, atual)|
    ensures UniqueIds(procs) ==>
      forall i, j :: 0 <= i < j < |procs| && procs[j] in Candidatos(procs, atual)[..m]
        && procs[i].ativo && procs[i].categoria.id == atual.categoria.id && procs[i].id != atual.id
        ==> procs[i] in Candidatos(procs, atual)[..m]
  {
    var h := (x: Procedimento) => MesmaCategoriaAtivo(x, atual) && x.id != atual.id;
    FilterFilter((x: Procedimento) => MesmaCategoriaAtivo(x, atual), (x: Procedimento) => x.id != atual.id, h, procs);
    if UniqueIds(procs) {
      assert Distinct(procs);
      FilterTakesFirst(h, procs, m);
    }
  }

  /** The related procedures of a detail page: the first five candidates in store order. */
  function Relacionados(procs: seq<Procedimento>, atual: Procedimento): (r: seq<Procedimento>)
    ensures |r| <= RelatedLimit
    ensures forall x :: x in r ==>
      x in procs && x.ativo && x.categoria.id == atual.categoria.id && x.id != atual.id
    ensures UniqueIds(procs) ==>
      forall i, j :: 0 <= i < j < |procs| && procs[j] in r
        && procs[i].ativo && procs[i].categoria.id == atual.categoria.id && procs[i].id != atual.id
        ==> procs[i] in r
  {
    var candidatos := Candidatos(procs, atual);
    var r := candidatos[..Min(RelatedLimit, |candidatos|)];
    assert forall x :: x in r ==> x in candidatos;
    CandidatosPrimeiros(procs, atual, Min(RelatedLimit, |candidatos|));
    r
  }

  /**
   * Fewer than five related procedures means every candidate is listed;
   * the list keeps the store's order.
   */
  lemma RelacionadosCompletos(procs: seq<Procedimento>, atual: Procedimento)
    ensures |Relacionados(procs, atual)| < RelatedLimit ==>
      forall x :: x in procs && x.ativo && x.categoria.id == atual.categoria.id && x.id != atual.id ==>
        x in Relacionados(procs, atual)
    ensures IsSubsequence(Relacionados(procs, atual), procs)
  {
    var inner := Filter((x: Procedimento) => MesmaCategoriaAtivo(x, atual), procs);
    var candidatos := Candidatos(procs, atual);
    var r := Relacionados(procs, atual);
    FilterIsSubsequence((x: Procedimento) => MesmaCategoriaAtivo(x, atual), procs);
    FilterIsSubsequence((x: Procedimento) => x.id != atual.id, inner);
    SubsequenceTransitive(candidatos, inner, procs);
    PrefixIsSubsequence(r, candidatos);
    SubsequenceTransitive(r, candidatos, procs);
  }

  /** What the quick search matches: an active procedure whose title or tags contain the query. */
  predicate CorrespondeRapida(p: Procedimento, q: string)
  {
    p.ativo && (IContains(p.titulo, q) || IContains(p.tags, q))
  }

  /** The quick search's queryset: empty for short queries, else the first ten matches. */
  function CorrespondenciasRapidas(procs: seq<Procedimento>, q: string): (r: seq<Procedimento>)
    ensures |q| < QuickMinLength ==> r == []
    ensures |r| <= QuickLimit
    ensures forall p :: p in r ==> p in procs && CorrespondeRapida(p, q)
    ensures UniqueIds(procs) ==>
      forall i, j :: 0 <= i < j < |procs| && procs[j] in r && CorrespondeRapida(procs[i], q) ==> procs[i] in r
  {
    if |q| < QuickMinLength then []
    else
      var m := Filter((p: Procedimento) => CorrespondeRapida(p, q), procs);
      var r := m[..Min(QuickLimit, |m|)];
      assert forall p :: p in r ==> p in m;
      if UniqueIds(procs) then
        assert Distinct(procs);
        FilterTakesFirst((p: Procedimento) => CorrespondeRapida(p, q), procs, Min(QuickLimit, |m|));
        r
      else r
  }

  /** Fewer than ten quick-search matches for a long enough query means all of them are listed. */
  lemma CorrespondenciasCompletas(procs: seq<Procedimento>, q: string, p: Procedimento)
    requires |q| >= QuickMinLength
    requires p in procs && CorrespondeRapida(p, q)
    requires |CorrespondenciasRapidas(procs, q)| < QuickLimit
    ensures p in CorrespondenciasRapidas(procs, q)
  {
  }

  /** One entry of the quick-search JSON. */
  datatype ItemRapido = ItemRapido(id: nat, titulo: string, categoria: string, prioridade: string, url: string)

  /** The detail page path of a procedure. */
  function DetalheUrl(id: nat): (u: string)
    ensures "/procedimentos/" <= u && u[|u| - 1] == '/'
  {
    "/procedimentos/" + NatToString(id) + "/"
  }

  /** The detail path names its procedure: the identifier reads back from it. */
  lemma DetalheUrlIdentifica(id: nat)
    ensures var u := DetalheUrl(id); |u| > 16 && ParseInt(u[15..|u| - 1]) == Some(id)
  {
    var u := DetalheUrl(id);
    assert u[15..|u| - 1] == NatToString(id);
    ParseIntOfNatToString(id);
  }

  /** Different procedures have different detail paths. */
  lemma DetalheUrlInjetiva(a: nat, b: nat)
    requires DetalheUrl(a) == DetalheUrl(b)
    ensures a == b
  {
    DetalheUrlIdentifica(a);
    DetalheUrlIdentifica(b);
  }

  /** The JSON entry for `p`: its id, title, category name, priority label and detail URL. */
  predicate ItemDe(item: ItemRapido, p: Procedimento)
  {
    && item.id == p.id && item.titulo == p.titulo && item.categoria == p.categoria.nome
    && item.prioridade == Display(PrioridadeChoices, p.prioridade)
    && item.url == DetalheUrl(p.id)
  }

  function Projetar(p: Procedimento): (item: ItemRapido)
    ensures ItemDe(item, p)
  {
    ItemRapido(p.id, p.titulo, p.categoria.nome, Display(PrioridadeChoices, p.prioridade), DetalheUrl(p.id))
  }

  /** `api_busca_rapida`: the matches, each projected to its JSON entry, in order. */
  method BuscaRapida(procs: seq<Procedimento>, q: string) returns (resultados: seq<ItemRapido>)
    ensures |q| < QuickMinLength ==> resultados == []
    ensures |resultados| <= QuickLimit
    ensures var m := CorrespondenciasRapidas(procs, q);
      |resultados| == |m| && forall i :: 0 <= i < |resultados| ==> ItemDe(resultados[i], m[i])
  {
    if |q| < QuickMinLength {
      return [];
    }
    var procedimentos := CorrespondenciasRapidas(procs, q);
    resultados := ProjetarTodos(procedimentos);
  }

  /** The JSON entries of `procedimentos`, one per procedure, in order. */
  method ProjetarTodos(procedimentos: seq<Procedimento>) returns (itens: seq<ItemRapido>)
    ensures |itens| == |procedimentos|
    ensures forall i :: 0 <= i < |itens| ==> ItemDe(itens[i], procedimentos[i])
  {
    itens := [];
    var i := 0;
    while i < |procedimentos|
      invariant 0 <= i <= |procedimentos|
      invariant |itens| == i
      invariant forall j :: 0 <= j < i ==> ItemDe(itens[j], procedimentos[j])
    {
      itens := itens + [Projetar(procedimentos[i])];
      i := i + 1;
    }
  }

  /** Report intake decides in a fixed order: method, then required fields, then lookup. */
  datatype DecisaoReport =
    | MetodoInvalido
    | FaltandoDados
    | IdNaoNumerico
    | NaoEncontrado
    | Aceito(procedimento: nat, motivo: string)

  /** A form field that is present and not empty. */
  predicate Preenchido(campo: Option<string>)
  {
    campo.Some? && campo.value != ""
  }

  /** The lookup `Procedimento.objects.get(id=...)` succeeds for this form value. */
  predicate IdExistente(procs: seq<Procedimento>, procedimentoId: string)
  {
    ParseInt(procedimentoId).Some? && ParseInt(procedimentoId).value >= 0 &&
    HasId(procs, ParseInt(procedimentoId).value)
  }

  function DecidirReport(procs: seq<Procedimento>, metodo: string, procedimentoId: Option<string>, motivo: Option<string>)
    : (d: DecisaoReport)
    ensures metodo != "POST" <==> d == MetodoInvalido
    ensures d == FaltandoDados <==> metodo == "POST" && !(Preenchido(procedimentoId) && Preenchido(motivo))
    ensures d.Aceito? <==>
      metodo == "POST" && Preenchido(procedimentoId) && Preenchido(motivo) && IdExistente(procs, procedimentoId.value)
    ensures d == IdNaoNumerico <==>
      metodo == "POST" && Preenchido(procedimentoId) && Preenchido(motivo) && ParseInt(procedimentoId.value).None?
    ensures d == NaoEncontrado <==>
      && metodo == "POST" && Preenchido(procedimentoId) && Preenchido(motivo)
      && ParseInt(procedimentoId.value).Some? && !IdExistente(procs, procedimentoId.value)
    ensures d.Aceito? ==>
      HasId(procs, d.procedimento) && d.motivo == motivo.value && ParseInt(procedimentoId.value) == Some(d.procedimento)
  {
    if metodo != "POST" then MetodoInvalido
    else if !(Preenchido(procedimentoId) && Preenchido(motivo)) then FaltandoDados
    else match ParseInt(procedimentoId.value)
      case None => IdNaoNumerico
      case Some(id) => if id >= 0 && HasId(procs, id) then Aceito(id, motivo.value) else NaoEncontrado
  }

  /** The lookup does not look at `ativo`: an archived procedure can still be reported. */
  lemma ReportIgnoraAtivo(procs: seq<Procedimento>, k: nat, motivo: string)
    requires k < |procs| && motivo != ""
    ensures DecidirReport(procs, "POST", Some(NatToString(procs[k].id)), Some(motivo)) == Aceito(procs[k].id, motivo)
  {
    ParseIntOfNatToString(procs[k].id);
    assert HasId(procs, procs[k].id);
    assert IdExistente(procs, NatToString(procs[k].id));
  }

  /** The three refusal messages of report intake. */
  datatype Mensagem = MetodoInvalidoMsg | FaltandoDadosMsg | NaoEncontradoMsg

  /** The text each message carries in the JSON body. */
  function Texto(m: Mensagem): string
  {
    match m
    case MetodoInvalidoMsg => "M\U{E9}todo inv\U{E1}lido."
    case FaltandoDadosMsg => "Faltando dados necess\U{E1}rios."
    case NaoEncontradoMsg => "Procedimento n\U{E3}o encontrado."
  }

  /** Different messages have different texts, so the client can tell the refusals apart. */
  lemma TextosDistintos(a: Mensagem, b: Mensagem)
    requires a != b
    ensures Texto(a) != Texto(b)
  {
  }

  /** What the endpoint sends back; an uncaught ValueError becomes a server error. */
  datatype Resposta = Json(success: bool, message: Option<Mensagem>) | ErroInterno

  function RespostaReport(d: DecisaoReport): (r: Resposta)
    ensures r == Json(true, None) <==> d.Aceito?
    ensures r.ErroInterno? <==> d == IdNaoNumerico
    ensures d == MetodoInvalido ==> r == Json(false, Some(MetodoInvalidoMsg))
    ensures d == FaltandoDados ==> r == Json(false, Some(FaltandoDadosMsg))
    ensures d == NaoEncontrado ==> r == Json(false, Some(NaoEncontradoMsg))
  {
    match d
    case MetodoInvalido => Json(false, Some(MetodoInvalidoMsg))
    case FaltandoDados => Json(false, Some(FaltandoDadosMsg))
    case IdNaoNumerico => ErroInterno
    case NaoEncontrado => Json(false, Some(NaoEncontradoMsg))
    case Aceito(_, _) => Json(true, None)
  }
}
