/**
 * The knowledge base's tables in memory, and the operations that change
 * them: usage tracking on the detail page, report intake, saving a
 * procedure from the admin and the bulk "mark as processed" action.
 *
 * `procedimentos` is kept in the model's default ordering, most recently
 * updated first; `historico` and `reports` grow at the end.
 */
module Store {
  import opened Wrappers
  import opened Seqs
  import opened Models
  import opened Views
  import opened Admin

  predicate OrdenadoPorAtualizacao(procs: seq<Procedimento>)
  {
    SortedDescending((p: Procedimento) => p.atualizadoEm, procs)
  }

  /**
   * `get_object_or_404(Procedimento, id=id, ativo=True)`: the position of
   * the active row with that identifier.
   */
  function LocalizarAtivo(procs: seq<Procedimento>, id: nat): (r: Option<nat>)
    ensures r.Some? ==> r.value < |procs| && procs[r.value].id == id && procs[r.value].ativo
    ensures UniqueIds(procs) ==>
      (r.None? <==> forall k :: 0 <= k < |procs| && procs[k].id == id ==> !procs[k].ativo)
  {
    match IndexOfId(procs, id)
    case None => None
    case Some(k) => if procs[k].ativo then Some(k) else None
  }

  /** The detail page: the procedure and its related procedures, or "not found". */
  datatype Detalhe = Ausente | Detalhe(procedimento: Procedimento, relacionados: seq<Procedimento>)

  /**
   * The row `save_model` writes. Fields the admin shows read-only keep their
   * stored values on a change and take the model's defaults on creation;
   * `criado_por` is set to the requesting user only on creation.
   */
  function ComoSalvo(form: Procedimento, anterior: Option<Procedimento>, usuario: UserId, agora: Timestamp, novoId: nat)
    : (p: Procedimento)
    ensures p.atualizadoEm == agora
    ensures anterior.None? ==>
      p.id == novoId && p.criadoPor == usuario && p.criadoEm == agora && p.visualizacoes == 0 && p.ultimoUso == None
    ensures anterior.Some? ==>
      && p.id == anterior.value.id && p.criadoPor == form.criadoPor && p.criadoEm == anterior.value.criadoEm
      && p.visualizacoes == anterior.value.visualizacoes && p.ultimoUso == anterior.value.ultimoUso
    ensures p.(id := form.id, criadoPor := form.criadoPor, criadoEm := form.criadoEm, atualizadoEm := form.atualizadoEm,
               visualizacoes := form.visualizacoes, ultimoUso := form.ultimoUso) == form
  {
    match anterior
    case None =>
      form.(id := novoId, criadoPor := usuario, criadoEm := agora, atualizadoEm := agora,
            visualizacoes := 0, ultimoUso := None)
    case Some(a) =>
      form.(id := a.id, criadoEm := a.criadoEm, atualizadoEm := agora,
            visualizacoes := a.visualizacoes, ultimoUso := a.ultimoUso)
  }

  lemma {:induction false} FilterKeepsUniqueIds(f: Procedimento -> bool, procs: seq<Procedimento>)
    requires UniqueIds(procs)
    ensures UniqueIds(Filter(f, procs))
    decreases |procs|
  {
    if procs != [] {
      FilterKeepsUniqueIds(f, procs[1..]);
      var rest := Filter(f, procs[1..]);
      if f(procs[0]) {
        var fs := Filter(f, procs);
        assert fs == [procs[0]] + rest;
        forall j | 0 <= j < |rest|
          ensures rest[j].id != procs[0].id
        {
          assert rest[j] in procs[1..];
        }
      }
    }
  }

  /** The store without the row holding `id`, in the same order. */
  function SemId(procs: seq<Procedimento>, id: nat): seq<Procedimento>
  {
    Filter((p: Procedimento) => p.id != id, procs)
  }

  /**
   * Putting a row first, after removing any row with its id, keeps the keys
   * unique and below the counter, and keeps the `-atualizado_em` order when
   * the row is at least as recent as every other.
   */
  lemma ColocarNaFrente(procs: seq<Procedimento>, salvo: Procedimento, proximo: nat)
    requires UniqueIds(procs) && OrdenadoPorAtualizacao(procs)
    requires forall k :: 0 <= k < |procs| ==> procs[k].id < proximo && procs[k].atualizadoEm <= salvo.atualizadoEm
    requires salvo.id < proximo
    ensures var novo := [salvo] + SemId(procs, salvo.id);
      && UniqueIds(novo) && OrdenadoPorAtualizacao(novo)
      && (forall k :: 0 <= k < |novo| ==> novo[k].id < proximo)
  {
    var f := (p: Procedimento) => p.id != salvo.id;
    var outros := SemId(procs, salvo.id);
    FilterKeepsUniqueIds(f, procs);
    FilterIsSubsequence(f, procs);
    SubsequenceKeepsOrder((p: Procedimento) => p.atualizadoEm, outros, procs);
    SubsequenceElements(outros, procs);
    var novo := [salvo] + outros;
    forall j | 0 < j < |novo|
      ensures novo[j].id != salvo.id && novo[j].atualizadoEm <= salvo.atualizadoEm && novo[j].id < proximo
    {
      assert novo[j] == outros[j - 1];
      assert outros[j - 1] in procs;
    }
  }

  /** A report whose id is the next counter value can be appended without clashing with any other. */
  lemma AcrescentarReport(reports: seq<Report>, novo: Report, proximo: nat)
    requires UniqueReportIds(reports) && forall k :: 0 <= k < |reports| ==> reports[k].id < proximo
    requires novo.id == proximo
    ensures UniqueReportIds(reports + [novo])
    ensures forall k :: 0 <= k < |reports + [novo]| ==> (reports + [novo])[k].id < proximo + 1
  {
  }

  class KnowledgeBase {
    var procedimentos: seq<Procedimento>
    var historico: seq<Historico>
    var reports: seq<Report>
    var proximoProcedimentoId: nat
    var proximoReportId: nat

    /** Primary keys are unique and below the next one to hand out; procedures are newest-updated first. */
    ghost predicate Valid()
      reads this
    {
      && UniqueIds(procedimentos)
      && (forall k :: 0 <= k < |procedimentos| ==> procedimentos[k].id < proximoProcedimentoId)
      && OrdenadoPorAtualizacao(procedimentos)
      && UniqueReportIds(reports)
      && (forall k :: 0 <= k < |reports| ==> reports[k].id < proximoReportId)
    }

    constructor ()
      ensures Valid()
      ensures procedimentos == [] && historico == [] && reports == []
    {
      procedimentos, historico, reports := [], [], [];
      proximoProcedimentoId, proximoReportId := 1, 1;
    }

    /** `incrementar_visualizacao()` on the row at position `k`; only that row's two fields change. */
    method IncrementarVisualizacao(k: nat, agora: Timestamp)
      requires Valid() && k < |procedimentos|
      modifies this
      ensures Valid()
      ensures procedimentos == old(procedimentos)[k := Visualizado(old(procedimentos)[k], agora)]
      ensures historico == old(historico) && reports == old(reports)
      ensures proximoProcedimentoId == old(proximoProcedimentoId) && proximoReportId == old(proximoReportId)
    {
      procedimentos := procedimentos[k := Visualizado(procedimentos[k], agora)];
      assert forall i :: 0 <= i < |procedimentos| ==>
        procedimentos[i].atualizadoEm == old(procedimentos)[i].atualizadoEm && procedimentos[i].id == old(procedimentos)[i].id;
    }

    /**
     * `detalhe_procedimento`: a missing or inactive procedure is "not found"
     * and nothing changes; otherwise its view count goes up by one, one
     * "visualizado" entry is appended to the history, and the related
     * procedures are listed.
     */
    method DetalheProcedimento(id: nat, usuario: UserId, agora: Timestamp) returns (r: Detalhe)
      requires Valid()
      modifies this
      ensures Valid()
      ensures r.Ausente? <==> LocalizarAtivo(old(procedimentos), id).None?
      ensures r.Ausente? ==> procedimentos == old(procedimentos) && historico == old(historico)
      ensures r.Detalhe? ==>
        var k := LocalizarAtivo(old(procedimentos), id).value;
        && procedimentos == old(procedimentos)[k := Visualizado(old(procedimentos)[k], agora)]
        && historico == old(historico) + [Historico(id, usuario, "visualizado", agora, "")]
        && r.procedimento == procedimentos[k]
        && r.relacionados == Relacionados(procedimentos, r.procedimento)
      ensures reports == old(reports)
      ensures proximoProcedimentoId == old(proximoProcedimentoId) && proximoReportId == old(proximoReportId)
    {
      var encontrado := LocalizarAtivo(procedimentos, id);
      if encontrado.None? {
        return Ausente;
      }
      var k := encontrado.value;
      IncrementarVisualizacao(k, agora);
      historico := historico + [Historico(id, usuario, "visualizado", agora, "")];
      var procedimento := procedimentos[k];
      r := Detalhe(procedimento, Relacionados(procedimentos, procedimento));
    }

    /** Store the report a decision accepts; on every other decision the report table is untouched. */
    method RegistrarDecisao(d: DecisaoReport, agora: Timestamp)
      requires Valid()
      modifies this
      ensures Valid()
      ensures reports == (if d.Aceito? then old(reports) + [NovoReport(old(proximoReportId), d.procedimento, d.motivo, agora)]
                          else old(reports))
      ensures proximoReportId == old(proximoReportId) + (if d.Aceito? then 1 else 0)
      ensures procedimentos == old(procedimentos) && historico == old(historico)
      ensures proximoProcedimentoId == old(proximoProcedimentoId)
    {
      if d.Aceito? {
        var novo := NovoReport(proximoReportId, d.procedimento, d.motivo, agora);
        AcrescentarReport(reports, novo, proximoReportId);
        reports := reports + [novo];
        proximoReportId := proximoReportId + 1;
      }
    }

    /**
     * `reportar_problema`: one new unprocessed report when the decision
     * accepts it, the report table untouched on every other outcome.
     */
    method ReportarProblema(metodo: string, procedimentoId: Option<string>, motivo: Option<string>, agora: Timestamp)
      returns (resposta: Resposta)
      requires Valid()
      modifies this
      ensures Valid()
      ensures var d := DecidirReport(old(procedimentos), metodo, procedimentoId, motivo);
        && resposta == RespostaReport(d)
        && reports == (if d.Aceito? then old(reports) + [NovoReport(old(proximoReportId), d.procedimento, d.motivo, agora)]
                       else old(reports))
        && proximoReportId == old(proximoReportId) + (if d.Aceito? then 1 else 0)
      ensures procedimentos == old(procedimentos) && historico == old(historico)
      ensures proximoProcedimentoId == old(proximoProcedimentoId)
    {
      var d := DecidirReport(procedimentos, metodo, procedimentoId, motivo);
      RegistrarDecisao(d, agora);
      resposta := RespostaReport(d);
    }

    /**
     * `ProcedimentoAdmin.save_model`: writes the row (new, or replacing the
     * stored one), which now comes first as the most recently updated, and
     * appends one "criado" or "editado" history entry.
     */
    method SalvarProcedimento(form: Procedimento, usuario: UserId, alteracao: bool, agora: Timestamp)
      returns (salvo: Procedimento)
      requires Valid()
      requires alteracao ==> HasId(procedimentos, form.id)
      requires forall k :: 0 <= k < |procedimentos| ==> procedimentos[k].atualizadoEm <= agora
      modifies this
      ensures Valid()
      ensures !alteracao ==> salvo == ComoSalvo(form, None, usuario, agora, old(proximoProcedimentoId))
      ensures alteracao ==>
        salvo == ComoSalvo(form, Some(old(procedimentos)[IndexOfId(old(procedimentos), form.id).value]), usuario, agora, 0)
      ensures procedimentos == [salvo] + SemId(old(procedimentos), salvo.id)
      ensures historico == old(historico) + [Historico(salvo.id, usuario, if alteracao then "editado" else "criado", agora, "")]
      ensures reports == old(reports) && proximoReportId == old(proximoReportId)
      ensures proximoProcedimentoId == old(proximoProcedimentoId) + (if alteracao then 0 else 1)
    {
      if alteracao {
        var k := IndexOfId(procedimentos, form.id).value;
        salvo := ComoSalvo(form, Some(procedimentos[k]), usuario, agora, 0);
      } else {
        salvo := ComoSalvo(form, None, usuario, agora, proximoProcedimentoId);
        proximoProcedimentoId := proximoProcedimentoId + 1;
      }
      ColocarNaFrente(procedimentos, salvo, proximoProcedimentoId);
      procedimentos := [salvo] + SemId(procedimentos, salvo.id);
      historico := historico + [Historico(salvo.id, usuario, if alteracao then "editado" else "criado", agora, "")];
    }

    /** `ReportAdmin.marcar_como_processado`: flag the selected reports and count them. */
    method MarcarComoProcessado(selecionados: set<nat>) returns (atualizados: nat)
      requires Valid()
      modifies this
      ensures Valid()
      ensures reports == MarcarProcessados(old(reports), selecionados)
      ensures atualizados == ContarSelecionados(old(reports), selecionados)
      ensures selecionados <= ReportIds(old(reports)) ==> atualizados == |selecionados|
      ensures procedimentos == old(procedimentos) && historico == old(historico)
      ensures proximoProcedimentoId == old(proximoProcedimentoId) && proximoReportId == old(proximoReportId)
    {
      atualizados := ContarSelecionados(reports, selecionados);
      if selecionados <= ReportIds(reports) {
        ContagemIgualSelecao(reports, selecionados);
      }
      reports := MarcarProcessados(reports, selecionados);
    }
  }

  /** Two detail views of the same procedure: two more views and two more history entries. */
  method VisualizarDuasVezes(kb: KnowledgeBase, id: nat, usuario: UserId, t1: Timestamp, t2: Timestamp)
    requires kb.Valid() && LocalizarAtivo(kb.procedimentos, id).Some?
    modifies kb
    ensures kb.Valid()
    ensures |kb.procedimentos| == |old(kb.procedimentos)|
    ensures var k := LocalizarAtivo(old(kb.procedimentos), id).value;
      kb.procedimentos[k].visualizacoes == old(kb.procedimentos[k].visualizacoes) + 2
    ensures |kb.historico| == |old(kb.historico)| + 2
  {
    var k := LocalizarAtivo(kb.procedimentos, id).value;
    var primeiro := kb.DetalheProcedimento(id, usuario, t1);
    IndexOfIdUnique(kb.procedimentos, id, k);
    var segundo := kb.DetalheProcedimento(id, usuario, t2);
  }
}
