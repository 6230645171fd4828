/**
 * The records of the procedures knowledge base (procedimentos/models.py):
 * clients, categories, procedures, usage history and problem reports, the
 * choice sets, the field defaults and the per-record operations.
 *
 * A record is a value here; the store that holds them (and changes them)
 * is the class in Store.dfy. Timestamps and user identities are plain
 * numbers supplied by the caller.
 */
module Models {
  import opened Wrappers
  import opened Text
  import opened Seqs

  type Timestamp = int
  type UserId = nat

  datatype Cliente = Cliente(
    id: nat, nome: string, empresa: string, email: string, telefone: string,
    observacoes: string, ativo: bool, criadoEm: Timestamp)

  datatype Categoria = Categoria(id: nat, nome: string, descricao: string, cor: string, icone: string)

  /**
   * A procedure row. The category is held by value, as the views read it
   * joined in; the client is a nullable reference by identifier.
   */
  datatype Procedimento = Procedimento(
    id: nat,
    titulo: string, descricao: string, solucao: string,
    categoria: Categoria, cliente: Option<nat>,
    tags: string, prioridade: string, status: string,
    linkExterno: string, videoUrl: string,
    criadoPor: UserId, criadoEm: Timestamp, atualizadoEm: Timestamp,
    ativo: bool, visualizacoes: nat, ultimoUso: Option<Timestamp>, eficacia: nat)

  /** One usage-history entry; `acao` is a free label such as "visualizado". */
  datatype Historico = Historico(procedimento: nat, usuario: UserId, acao: string, data: Timestamp, observacoes: string)

  datatype Report = Report(id: nat, procedimento: nat, motivo: string, processado: bool, criadoEm: Timestamp)

  /** PRIORIDADE_CHOICES and STATUS_CHOICES: (stored value, display label). */
  const PrioridadeChoices: seq<(string, string)> :=
    [("baixa", "Baixa"), ("media", "M\U{E9}dia"), ("alta", "Alta"), ("critica", "Cr\U{ED}tica")]
  const StatusChoices: seq<(string, string)> :=
    [("ativo", "Ativo"), ("revisao", "Em Revis\U{E3}o"), ("desatualizado", "Desatualizado"), ("arquivado", "Arquivado")]

  predicate IsChoice(choices: seq<(string, string)>, value: string)
  {
    exists i :: 0 <= i < |choices| && choices[i].0 == value
  }

  /** `get_<field>_display()`: the label of a known value, otherwise the value itself. */
  function Display(choices: seq<(string, string)>, value: string): (shown: string)
    ensures IsChoice(choices, value) ==> (value, shown) in choices
    ensures !IsChoice(choices, value) ==> shown == value
    decreases |choices|
  {
    if choices == [] then value
    else if choices[0].0 == value then choices[0].1
    else
      assert IsChoice(choices, value) ==> IsChoice(choices[1..], value) by {
        if IsChoice(choices, value) {
          var i :| 0 <= i < |choices| && choices[i].0 == value;
          assert choices[1..][i - 1].0 == value;
        }
      }
      Display(choices[1..], value)
  }

  /** The priority labels: each stored value shows its own label. */
  lemma PrioridadeLabels()
    ensures Display(PrioridadeChoices, "baixa") == "Baixa"
    ensures Display(PrioridadeChoices, "media") == "M\U{E9}dia"
    ensures Display(PrioridadeChoices, "alta") == "Alta"
    ensures Display(PrioridadeChoices, "critica") == "Cr\U{ED}tica"
  {
  }

  /** A procedure as the model's constructor makes it: the field defaults applied. */
  function NovoProcedimento(
    id: nat, titulo: string, descricao: string, solucao: string, categoria: Categoria,
    cliente: Option<nat>, tags: string, criadoPor: UserId, agora: Timestamp): (p: Procedimento)
    ensures p.prioridade == "media" && p.status == "ativo" && p.ativo
    ensures p.visualizacoes == 0 && p.eficacia == 0 && p.ultimoUso == None
    ensures IsChoice(PrioridadeChoices, p.prioridade) && IsChoice(StatusChoices, p.status)
    ensures p.id == id && p.titulo == titulo && p.descricao == descricao && p.solucao == solucao
    ensures p.categoria == categoria && p.cliente == cliente && p.tags == tags && p.criadoPor == criadoPor
  {
    assert PrioridadeChoices[1].0 == "media" && StatusChoices[0].0 == "ativo";
    Procedimento(id, titulo, descricao, solucao, categoria, cliente, tags, "media", "ativo",
                 "", "", criadoPor, agora, agora, true, 0, None, 0)
  }

  /** A report as the model creates it: not yet processed. */
  function NovoReport(id: nat, procedimento: nat, motivo: string, agora: Timestamp): (r: Report)
    ensures !r.processado
    ensures r.id == id && r.procedimento == procedimento && r.motivo == motivo && r.criadoEm == agora
  {
    Report(id, procedimento, motivo, false, agora)
  }

  /** `Cliente.__str__`: the name, followed by the company in parentheses when there is one. */
  function ClienteStr(c: Cliente): (s: string)
    ensures c.nome <= s
    ensures s == c.nome <==> c.empresa == ""
    ensures c.empresa != "" ==> s[|c.nome|..] == " (" + c.empresa + ")"
  {
    if c.empresa != "" then c.nome + " (" + c.empresa + ")" else c.nome
  }

  function StripAll(pieces: seq<string>): (r: seq<string>)
    ensures |r| == |pieces|
    ensures forall k :: 0 <= k < |r| ==> r[k] == Strip(pieces[k])
  {
    seq(|pieces|, k requires 0 <= k < |pieces| => Strip(pieces[k]))
  }

  predicate NonEmpty(t: string)
  {
    t != []
  }

  /**
   * `get_tags_list()`: the comma-separated pieces of `tags`, each stripped of
   * surrounding whitespace, the empty ones dropped.
   */
  function TagsList(tags: string): (r: seq<string>)
    ensures forall t :: t in r ==> t != [] && IsStripped(t) && ',' !in t
    ensures forall k :: 0 <= k < |Split(tags)| && !AllSpace(Split(tags)[k]) ==> Strip(Split(tags)[k]) in r
    ensures |r| <= Commas(tags) + 1
  {
    var pieces := Split(tags);
    StrippedPieces(pieces);
    NonBlankPiecesKept(pieces);
    Filter(NonEmpty, StripAll(pieces))
  }

  /** No piece with something other than whitespace in it is dropped. */
  lemma NonBlankPiecesKept(pieces: seq<string>)
    ensures forall k :: 0 <= k < |pieces| && !AllSpace(pieces[k]) ==> Strip(pieces[k]) in Filter(NonEmpty, StripAll(pieces))
  {
    var stripped := StripAll(pieces);
    forall k | 0 <= k < |pieces| && !AllSpace(pieces[k])
      ensures Strip(pieces[k]) in Filter(NonEmpty, stripped)
    {
      assert stripped[k] == Strip(pieces[k]) && NonEmpty(stripped[k]);
    }
  }

  /** Stripped comma-free pieces are stripped and still comma-free. */
  lemma StrippedPieces(pieces: seq<string>)
    requires forall k :: 0 <= k < |pieces| ==> ',' !in pieces[k]
    ensures forall t :: t in StripAll(pieces) ==> IsStripped(t) && ',' !in t
  {
    var stripped := StripAll(pieces);
    forall t | t in stripped
      ensures IsStripped(t) && ',' !in t
    {
      var k :| 0 <= k < |stripped| && stripped[k] == t;
      StripSemNovos(pieces[k], ',');
    }
  }

  /** Every tag is left unchanged by `strip()`. */
  lemma TagsAreStripped(tags: string)
    ensures forall t :: t in TagsList(tags) ==> Strip(t) == t
  {
    forall t | t in TagsList(tags)
      ensures Strip(t) == t
    {
      StripFixesStripped(t);
    }
  }

  /**
   * The tags come in the order of the string: they are what remains of the
   * stripped pieces, in order, and the pieces joined by commas give back the string.
   */
  lemma TagsInSourceOrder(tags: string)
    ensures IsSubsequence(TagsList(tags), StripAll(Split(tags)))
    ensures Join(Split(tags)) == tags
  {
    FilterIsSubsequence(NonEmpty, StripAll(Split(tags)));
    JoinSplit(tags);
  }

  predicate OnlyCommasAndSpaces(s: string)
  {
    forall i :: 0 <= i < |s| ==> s[i] == ',' || IsSpace(s[i])
  }

  lemma AllSpaceCons(c: char, t: string)
    ensures AllSpace([c] + t) <==> IsSpace(c) && AllSpace(t)
  {
    assert ([c] + t)[0] == c;
    assert forall i :: 0 <= i < |t| ==> ([c] + t)[i + 1] == t[i];
  }

  lemma OnlyCommasAndSpacesCons(s: string)
    requires s != []
    ensures OnlyCommasAndSpaces(s) <==> (s[0] == ',' || IsSpace(s[0])) && OnlyCommasAndSpaces(s[1..])
  {
    assert forall i :: 1 <= i < |s| ==> s[i] == s[1..][i - 1];
  }

  predicate AllBlank(pieces: seq<string>)
  {
    forall k :: 0 <= k < |pieces| ==> AllSpace(pieces[k])
  }

  lemma AllBlankCons(p: string, ps: seq<string>)
    ensures AllBlank([p] + ps) <==> AllSpace(p) && AllBlank(ps)
  {
    var qs := [p] + ps;
    assert qs[0] == p;
    assert forall k :: 0 <= k < |ps| ==> qs[k + 1] == ps[k];
    if AllSpace(p) && AllBlank(ps) {
      forall k | 0 <= k < |qs|
        ensures AllSpace(qs[k])
      {
        if k > 0 {
          assert qs[k] == ps[k - 1];
        }
      }
    }
  }

  /** Every piece of `s` is whitespace exactly when `s` holds only commas and whitespace. */
  lemma {:induction false} PiecesBlank(s: string)
    ensures AllBlank(Split(s)) <==> OnlyCommasAndSpaces(s)
    decreases |s|
  {
    if s != [] {
      PiecesBlank(s[1..]);
      OnlyCommasAndSpacesCons(s);
      var rest := Split(s[1..]);
      if s[0] == ',' {
        assert Split(s) == [[]] + rest;
        AllBlankCons([], rest);
      } else {
        assert Split(s) == [[s[0]] + rest[0]] + rest[1..];
        assert rest == [rest[0]] + rest[1..];
        AllSpaceCons(s[0], rest[0]);
        AllBlankCons([s[0]] + rest[0], rest[1..]);
        AllBlankCons(rest[0], rest[1..]);
      }
    }
  }

  /** Dropping the empty strings leaves nothing exactly when every string is empty. */
  lemma {:induction false} NadaNaoVazio(s: seq<string>)
    ensures Filter(NonEmpty, s) == [] <==> forall k :: 0 <= k < |s| ==> s[k] == []
    decreases |s|
  {
    if s != [] {
      NadaNaoVazio(s[1..]);
      assert forall k :: 1 <= k < |s| ==> s[k] == s[1..][k - 1];
    }
  }

  /** No tags at all exactly when the string holds nothing but commas and whitespace. */
  lemma TagsEmptyIff(tags: string)
    ensures TagsList(tags) == [] <==> OnlyCommasAndSpaces(tags)
  {
    var pieces := Split(tags);
    var stripped := StripAll(pieces);
    NadaNaoVazio(stripped);
    PiecesBlank(tags);
    forall k | 0 <= k < |stripped|
      ensures stripped[k] == [] <==> AllSpace(pieces[k])
    {
      assert stripped[k] == Strip(pieces[k]);
    }
    assert (forall k :: 0 <= k < |stripped| ==> stripped[k] == []) <==> AllBlank(pieces);
  }

  lemma {:induction false} FilterKeepsAll(s: seq<string>)
    requires forall k :: 0 <= k < |s| ==> s[k] != []
    ensures Filter(NonEmpty, s) == s
    decreases |s|
  {
    if s != [] {
      FilterKeepsAll(s[1..]);
      assert [s[0]] + s[1..] == s;
    }
  }

  /** A list of proper tags written out with commas reads back as the same list. */
  lemma TagsOfJoin(ts: seq<string>)
    requires |ts| >= 1
    requires forall k :: 0 <= k < |ts| ==> ts[k] != [] && IsStripped(ts[k]) && ',' !in ts[k]
    ensures TagsList(Join(ts)) == ts
  {
    SplitJoin(ts);
    forall k | 0 <= k < |ts|
      ensures Strip(ts[k]) == ts[k]
    {
      StripFixesStripped(ts[k]);
    }
    assert StripAll(ts) == ts;
    FilterKeepsAll(ts);
  }

  /**
   * `incrementar_visualizacao()` on one row: one more view, last use now,
   * every other field as it was.
   */
  function Visualizado(p: Procedimento, agora: Timestamp): (r: Procedimento)
    ensures r.visualizacoes == p.visualizacoes + 1 && r.ultimoUso == Some(agora)
    ensures r.(visualizacoes := p.visualizacoes, ultimoUso := p.ultimoUso) == p
  {
    p.(visualizacoes := p.visualizacoes + 1, ultimoUso := Some(agora))
  }

  predicate Ativo(p: Procedimento)
  {
    p.ativo
  }

  /** Identifiers are primary keys: no two rows share one. */
  predicate UniqueIds(procs: seq<Procedimento>)
  {
    forall i, j :: 0 <= i < j < |procs| ==> procs[i].id != procs[j].id
  }

  predicate HasId(procs: seq<Procedimento>, id: nat)
  {
    exists k :: 0 <= k < |procs| && procs[k].id == id
  }

  /** `objects.get(id=id)`: the position of the row with that identifier, if there is one. */
  function IndexOfId(procs: seq<Procedimento>, id: nat): (r: Option<nat>)
    ensures r.Some? ==> r.value < |procs| && procs[r.value].id == id
    ensures r.None? <==> !HasId(procs, id)
    decreases |procs|
  {
    if procs == [] then None
    else if procs[0].id == id then Some(0)
    else
      assert HasId(procs, id) <==> HasId(procs[1..], id) by {
        if HasId(procs, id) {
          var k :| 0 <= k < |procs| && procs[k].id == id;
          assert procs[1..][k - 1].id == id;
        }
        if HasId(procs[1..], id) {
          var k :| 0 <= k < |procs| - 1 && procs[1..][k].id == id;
          assert procs[k + 1].id == id;
        }
      }
      match IndexOfId(procs[1..], id)
      case None => None
      case Some(k) => Some(k + 1)
  }

  /** With unique identifiers the row found is the only one with that identifier. */
  lemma IndexOfIdUnique(procs: seq<Procedimento>, id: nat, k: nat)
    requires UniqueIds(procs)
    requires k < |procs| && procs[k].id == id
    ensures IndexOfId(procs, id) == Some(k)
  {
  }
}
