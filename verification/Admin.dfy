/**
 * The administration side (procedimentos/admin.py): the badge colours, the
 * per-client and per-category counts of active procedures, what the admin
 * lets anyone do with history entries, and the bulk action that marks
 * reports as processed. Saving a procedure from the admin changes the store
 * and is in Store.dfy.
 */
module Admin {
  import opened Wrappers
  import opened Seqs
  import opened Models

  /** The colour used for any value without one of its own. */
  const CorPadrao: string := "#6c757d"

  const CoresPrioridade: map<string, string> :=
    map["baixa" := "#28a745", "media" := "#ffc107", "alta" := "#fd7e14", "critica" := "#dc3545"]

  const CoresStatus: map<string, string> :=
    map["ativo" := "#28a745", "revisao" := "#ffc107", "desatualizado" := "#fd7e14", "arquivado" := "#6c757d"]

  lemma PrioridadeChoiceKeys(prioridade: string)
    ensures IsChoice(PrioridadeChoices, prioridade) <==> prioridade in CoresPrioridade
  {
    if prioridade in CoresPrioridade {
      var i := if prioridade == "baixa" then 0 else if prioridade == "media" then 1
               else if prioridade == "alta" then 2 else 3;
      assert PrioridadeChoices[i].0 == prioridade;
    }
  }

  lemma StatusChoiceKeys(status: string)
    ensures IsChoice(StatusChoices, status) <==> status in CoresStatus
  {
    if status in CoresStatus {
      var i := if status == "ativo" then 0 else if status == "revisao" then 1
               else if status == "desatualizado" then 2 else 3;
      assert StatusChoices[i].0 == status;
    }
  }

  /** The colour of `prioridade_badge`: its own colour for each priority choice, the default otherwise. */
  function CorPrioridade(prioridade: string): (cor: string)
    ensures cor != CorPadrao <==> IsChoice(PrioridadeChoices, prioridade)
  {
    PrioridadeChoiceKeys(prioridade);
    if prioridade in CoresPrioridade then CoresPrioridade[prioridade] else CorPadrao
  }

  /** Each priority choice has a colour no other priority shares. */
  lemma CoresPrioridadeDistintas(a: string, b: string)
    requires IsChoice(PrioridadeChoices, a) && IsChoice(PrioridadeChoices, b) && a != b
    ensures CorPrioridade(a) != CorPrioridade(b)
  {
    PrioridadeChoiceKeys(a);
    PrioridadeChoiceKeys(b);
  }

  /** The colour each key of the two badge tables gets, and the fallback for an unknown key. */
  lemma CoresConhecidas(outro: string)
    requires !IsChoice(PrioridadeChoices, outro) && !IsChoice(StatusChoices, outro)
    ensures CorPrioridade("baixa") == "#28a745" && CorPrioridade("media") == "#ffc107"
    ensures CorPrioridade("alta") == "#fd7e14" && CorPrioridade("critica") == "#dc3545"
    ensures CorStatus("ativo") == "#28a745" && CorStatus("revisao") == "#ffc107"
    ensures CorStatus("desatualizado") == "#fd7e14" && CorStatus("arquivado") == CorPadrao
    ensures CorPrioridade(outro) == CorPadrao && CorStatus(outro) == CorPadrao
  {
  }

  /**
   * The colour of `status_badge`: "arquivado" shares the default colour, so
   * the default shows exactly for archived and for unknown statuses.
   */
  function CorStatus(status: string): (cor: string)
    ensures cor == CorPadrao <==> status == "arquivado" || !IsChoice(StatusChoices, status)
  {
    StatusChoiceKeys(status);
    if status in CoresStatus then CoresStatus[status] else CorPadrao
  }

  /** Active procedures that belong to an owner, as `obj.procedimentos.filter(ativo=True).count()` counts them. */
  function ContarAtivos(procs: seq<Procedimento>, dono: Procedimento -> bool): (n: nat)
    ensures n == |Filter((p: Procedimento) => dono(p) && p.ativo, procs)|
    decreases |procs|
  {
    if procs == [] then 0
    else (if dono(procs[0]) && procs[0].ativo then 1 else 0) + ContarAtivos(procs[1..], dono)
  }

  /** `ClienteAdmin.total_procedimentos`: the client's active procedures. */
  function TotalProcedimentosCliente(procs: seq<Procedimento>, cliente: Cliente): (n: nat)
    ensures n == |Filter((p: Procedimento) => p.cliente == Some(cliente.id) && p.ativo, procs)|
  {
    var dono := (p: Procedimento) => p.cliente == Some(cliente.id);
    FilterCongruent((p: Procedimento) => dono(p) && p.ativo,
                    (p: Procedimento) => p.cliente == Some(cliente.id) && p.ativo, procs);
    ContarAtivos(procs, dono)
  }

  /** `CategoriaAdmin.total_procedimentos`: the category's active procedures. */
  function TotalProcedimentosCategoria(procs: seq<Procedimento>, categoria: Categoria): (n: nat)
    ensures n == |Filter((p: Procedimento) => p.categoria.id == categoria.id && p.ativo, procs)|
  {
    var dono := (p: Procedimento) => p.categoria.id == categoria.id;
    FilterCongruent((p: Procedimento) => dono(p) && p.ativo,
                    (p: Procedimento) => p.categoria.id == categoria.id && p.ativo, procs);
    ContarAtivos(procs, dono)
  }

  /** Inactive procedures never count: dropping them all leaves the total as it was. */
  lemma {:induction false} ContarIgnoraInativos(procs: seq<Procedimento>, dono: Procedimento -> bool)
    ensures ContarAtivos(Filter(Ativo, procs), dono) == ContarAtivos(procs, dono)
    decreases |procs|
  {
    if procs != [] {
      ContarIgnoraInativos(procs[1..], dono);
      var fs := Filter(Ativo, procs);
      if procs[0].ativo {
        assert fs[0] == procs[0] && fs[1..] == Filter(Ativo, procs[1..]);
      } else {
        assert fs == Filter(Ativo, procs[1..]);
      }
    }
  }

  /** Archiving one of the owner's active procedures lowers its total by exactly one. */
  lemma {:induction false} ContarArquivar(procs: seq<Procedimento>, dono: Procedimento -> bool, k: nat)
    requires k < |procs| && dono(procs[k]) && procs[k].ativo
    ensures ContarAtivos(procs[k := procs[k].(ativo := false)], dono) == ContarAtivos(procs, dono) - 1
    decreases |procs|
  {
    var arquivado := procs[k := procs[k].(ativo := false)];
    if k == 0 {
      assert arquivado[1..] == procs[1..];
    } else {
      ContarArquivar(procs[1..], dono, k - 1);
      assert arquivado[1..] == procs[1..][k - 1 := procs[k].(ativo := false)];
    }
  }

  /** The three admin operations on a history entry. */
  datatype Operacao = Adicionar | Alterar | Excluir

  /**
   * The history inline on the procedure page: no adding (`has_add_permission`),
   * no deleting (`can_delete = False`); changing follows the user's grant.
   */
  function PermissaoInlineHistorico(op: Operacao, concedida: bool): (permitido: bool)
    ensures permitido ==> op == Alterar && concedida
    ensures op == Alterar ==> permitido == concedida
  {
    match op
    case Adicionar => false
    case Alterar => concedida
    case Excluir => false
  }

  /**
   * The history's own admin page: no adding, no changing; deleting is not
   * overridden, so it follows the user's grant.
   */
  function PermissaoAdminHistorico(op: Operacao, concedida: bool): (permitido: bool)
    ensures permitido ==> op == Excluir && concedida
    ensures op == Excluir ==> permitido == concedida
  {
    match op
    case Adicionar => false
    case Alterar => false
    case Excluir => concedida
  }

  /** No admin page ever adds a history entry, whatever the user is granted. */
  lemma HistoricoSemAdicaoNoAdmin(concedida: bool)
    ensures !PermissaoInlineHistorico(Adicionar, concedida) && !PermissaoAdminHistorico(Adicionar, concedida)
  {
  }

  predicate UniqueReportIds(reports: seq<Report>)
  {
    forall i, j :: 0 <= i < j < |reports| ==> reports[i].id != reports[j].id
  }

  /** The identifiers of the reports in the table. */
  function ReportIds(reports: seq<Report>): (ids: set<nat>)
    ensures forall x :: x in ids <==> exists j :: 0 <= j < |reports| && reports[j].id == x
    decreases |reports|
  {
    if reports == [] then {}
    else
      var ids := {reports[0].id} + ReportIds(reports[1..]);
      assert forall x :: (exists j :: 0 <= j < |reports| && reports[j].id == x) ==> x in ids by {
        forall x | exists j :: 0 <= j < |reports| && reports[j].id == x
          ensures x in ids
        {
          var j :| 0 <= j < |reports| && reports[j].id == x;
          if j > 0 {
            assert reports[1..][j - 1].id == x;
          }
        }
      }
      ids
  }

  /** `queryset.update(processado=True)` over the selected reports. */
  function MarcarProcessados(reports: seq<Report>, selecionados: set<nat>): (r: seq<Report>)
    ensures |r| == |reports|
    ensures forall i :: 0 <= i < |r| ==> r[i].processado == (reports[i].processado || reports[i].id in selecionados)
    ensures forall i :: 0 <= i < |r| ==> r[i].(processado := reports[i].processado) == reports[i]
  {
    seq(|reports|, i requires 0 <= i < |reports| =>
      if reports[i].id in selecionados then reports[i].(processado := true) else reports[i])
  }

  /** Marking the same selection twice changes nothing the second time. */
  lemma MarcarIdempotente(reports: seq<Report>, selecionados: set<nat>)
    ensures MarcarProcessados(MarcarProcessados(reports, selecionados), selecionados) == MarcarProcessados(reports, selecionados)
  {
  }

  /** The number of rows `update` reports: the reports whose identifier is selected. */
  function ContarSelecionados(reports: seq<Report>, selecionados: set<nat>): (n: nat)
    ensures n == |Filter((r: Report) => r.id in selecionados, reports)|
    decreases |reports|
  {
    if reports == [] then 0
    else (if reports[0].id in selecionados then 1 else 0) + ContarSelecionados(reports[1..], selecionados)
  }

  /** With unique identifiers, the first report's identifier is not among the others'. */
  lemma PrimeiroIdNovo(reports: seq<Report>)
    requires UniqueReportIds(reports) && reports != []
    ensures reports[0].id !in ReportIds(reports[1..])
  {
  }

  /** Adding a new element to a set grows its intersection with `s` by one exactly when `s` holds it. */
  lemma InterseccaoComNovo(s: set<nat>, id: nat, resto: set<nat>)
    requires id !in resto
    ensures |s * ({id} + resto)| == |s * resto| + (if id in s then 1 else 0)
  {
    if id in s {
      assert s * ({id} + resto) == (s * resto) + {id};
    } else {
      assert s * ({id} + resto) == s * resto;
    }
  }

  lemma {:induction false} ContarInterseccao(reports: seq<Report>, selecionados: set<nat>)
    requires UniqueReportIds(reports)
    ensures ContarSelecionados(reports, selecionados) == |selecionados * ReportIds(reports)|
    decreases |reports|
  {
    if reports != [] {
      var rest := reports[1..];
      ContarInterseccao(rest, selecionados);
      PrimeiroIdNovo(reports);
      assert ReportIds(reports) == {reports[0].id} + ReportIds(rest);
      InterseccaoComNovo(selecionados, reports[0].id, ReportIds(rest));
    }
  }

  /** Selecting existing reports, the count shown to the admin is the size of the selection. */
  lemma ContagemIgualSelecao(reports: seq<Report>, selecionados: set<nat>)
    requires UniqueReportIds(reports) && selecionados <= ReportIds(reports)
    ensures ContarSelecionados(reports, selecionados) == |selecionados|
  {
    ContarInterseccao(reports, selecionados);
    assert selecionados * ReportIds(reports) == selecionados;
  }
}
