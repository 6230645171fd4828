# OpsFinder procedures knowledge base — a Dafny model

OpsFinder is a Django application for an operations team. It stores
troubleshooting procedures (`Procedimento`), each with a category, an optional
client, comma-separated tags, a priority and a status. It keeps a usage history
(`HistoricoProcedimento`) and a table of problem reports (`Report`).

This project models the `procedimentos` app with the database replaced by an
in-memory store:

- `Text.dfy` holds the string operations the app relies on, with Python's
  meaning: `str.strip()`, `str.split(',')`, `int()` and `str()` on integers, and
  the case folding behind `icontains`.
- `Seqs.dfy` holds order-preserving filtering and subsequences. Every queryset
  filter in the app is one of these.
- `Models.dfy` holds:
  - the records;
  - the priority and status choice sets;
  - the field defaults;
  - `Cliente.__str__`;
  - the tag list (`get_tags_list`);
  - the view-count bump (`incrementar_visualizacao`).
- `Views.dfy` holds:
  - the search filter chain and its pagination;
  - the related-procedures list;
  - the quick-search API, with its loop building the JSON items;
  - the report-intake decision and its response.
- `Admin.dfy` holds:
  - the badge colour lookups;
  - the `total_procedimentos` counts;
  - the history permissions;
  - the "mark as processed" bulk action.
- `Store.dfy` holds the class `KnowledgeBase`. It owns the three tables and the
  operations that change them: the detail view, report intake, `save_model` and
  `marcar_como_processado`. Its invariant `Valid()` covers:
  - unique primary keys;
  - the id counters;
  - procedures kept in the model's `-atualizado_em` order.

The current time is always a parameter, and so is the requesting user.

## Model

| member | source | states |
|---|---|---|
| Text.StripStart | procedimentos/models.py:94 | The result is a suffix of the input, only whitespace was removed, and it does not start with whitespace. |
| Text.StripEnd | procedimentos/models.py:94 | The result is a prefix of the input, only whitespace was removed, and it does not end with whitespace. |
| Text.Strip | procedimentos/models.py:94 | `strip()`: the result is a contiguous run `s[i..j]` of the input with only whitespace before and after it, has no whitespace at either end, and is empty exactly when the input is all whitespace. |
| Text.StripKeepsMiddle | procedimentos/models.py:94 | What is left after stripping both ends is a run of the input with only whitespace cut from either side; it is empty exactly when the input is all whitespace. |
| Text.StripBothEnds | procedimentos/models.py:94 | `rstrip(lstrip(s))` is `s[d..e]` for the number `d` of leading and `|s| - e` of trailing characters cut, all of them whitespace. |
| Text.StripSemNovos | procedimentos/models.py:94 | A character absent from a string is absent from its `strip()`; in particular stripping keeps a piece comma-free. |
| Text.StripFixesStripped | procedimentos/models.py:94 | A string with no whitespace at its ends is unchanged by `strip()`. |
| Text.StripIdempotent | procedimentos/models.py:94 | Stripping twice equals stripping once. |
| Text.Split | procedimentos/models.py:94 | `split(',')` yields one piece more than there are commas, and no piece contains a comma. |
| Text.JoinSplit | procedimentos/models.py:94 | Re-joining the pieces with commas gives back the original string. |
| Text.SplitCommaFree | procedimentos/models.py:94 | A comma-free string splits into itself alone. |
| Text.SplitAtComma | procedimentos/models.py:94 | Splitting `a + "," + b`, with `a` comma-free, gives `[a]` followed by the pieces of `b`. |
| Text.SplitJoin | procedimentos/models.py:94 | Splitting the comma-join of comma-free pieces gives the pieces back. |
| Text.ContainsAt | procedimentos/views.py:19-24 | Substring containment holds exactly when the needle occurs at some position of the text. |
| Text.IContainsIgnoraCaixa | procedimentos/views.py:19-24 | `icontains` holds exactly when the lower-cased needle occurs in the lower-cased text; lower-casing either side first changes nothing, and an exact occurrence always matches. |
| Text.NatToString | procedimentos/views.py:99 | `str(id)` is all decimal digits with no leading zero. |
| Text.DigitsValueOfNatToString | procedimentos/views.py:99 | The digits of `str(n)` have value `n`. |
| Text.NatToStringInjective | procedimentos/views.py:99 | Different ids print differently. |
| Text.ParseInt | procedimentos/views.py:111 | `int()` of a blank string fails. |
| Text.ParseIntOfNatToString | procedimentos/views.py:111 | `int(str(n)) == n`. |
| Seqs.Filter | procedimentos/views.py:16 | A filter keeps exactly the elements satisfying the predicate and never grows the sequence. |
| Seqs.FilterFilter | procedimentos/views.py:26-30 | Two chained filters equal one filter by the conjunction. |
| Seqs.FilterCongruent | procedimentos/views.py:26-30 | Filters by predicates that agree everywhere give the same sequence. |
| Seqs.FilterTakesFirst | procedimentos/views.py:66-69 | On a sequence without repeats, the first `m` elements a filter keeps are the first `m` qualifying ones: a qualifying element before a kept one is kept. |
| Seqs.FilterIsSubsequence | procedimentos/models.py:83 | A filter's result is a subsequence: the order is preserved. |
| Seqs.PrefixIsSubsequence | procedimentos/views.py:69 | A prefix (a `[:n]` slice) is a subsequence. |
| Seqs.SubsequenceTransitive | procedimentos/views.py:66-69 | A subsequence of a subsequence is a subsequence. |
| Seqs.SubsequenceElements | procedimentos/views.py:66-69 | Every element of a subsequence is an element of the whole. |
| Seqs.SubsequenceKeepsOrder | procedimentos/models.py:83 | A subsequence of a sequence sorted by a descending key is sorted the same way. |
| Models.Display | procedimentos/models.py:39-51 | `get_FOO_display`: a known key gives its paired label; an unknown key is shown as itself. |
| Models.PrioridadeLabels | procedimentos/models.py:39-44 | The four priority labels, accents included. |
| Models.NovoProcedimento | procedimentos/models.py:60-61 | A new procedure has priority `media`, status `ativo`, is active, has zero views and zero efficacy, no last use, and both defaults are valid choices. |
| Models.NovoReport | procedimentos/models.py:122-126 | A new report is unprocessed and carries the given procedure, reason and time. |
| Models.ClienteStr | procedimentos/models.py:19-22 | The text starts with `nome`; it is exactly `nome` iff `empresa` is empty; otherwise `" (" + empresa + ")"` follows. |
| Models.TagsList | procedimentos/models.py:93-94 | Every tag is non-empty, stripped and comma-free; every piece with a non-whitespace character appears, stripped, among the tags; there are at most one more tags than commas. |
| Models.NonBlankPiecesKept | procedimentos/models.py:94 | No piece that holds a non-whitespace character is dropped: its stripped form is in the list. |
| Models.StrippedPieces | procedimentos/models.py:94 | Stripping comma-free pieces gives stripped, comma-free pieces. |
| Models.TagsAreStripped | procedimentos/models.py:94 | Every tag equals its own `strip()`. |
| Models.TagsInSourceOrder | procedimentos/models.py:94 | The tags are a subsequence of the stripped pieces; the unstripped pieces re-join with commas to the original string. |
| Models.AllSpaceCons | procedimentos/models.py:94 | A string is all whitespace iff its first character is whitespace and the rest is all whitespace. |
| Models.OnlyCommasAndSpacesCons | procedimentos/models.py:94 | The same step for strings made only of commas and whitespace. |
| Models.AllBlankCons | procedimentos/models.py:94 | A list of pieces is all blank iff its head and its tail are. |
| Models.PiecesBlank | procedimentos/models.py:94 | Every piece of the split is blank iff the string holds only commas and whitespace. |
| Models.NadaNaoVazio | procedimentos/models.py:94 | Dropping empty strings leaves nothing exactly when every string is empty. |
| Models.TagsEmptyIff | procedimentos/models.py:94 | The tag list is empty iff the tags string holds only commas and whitespace. |
| Models.FilterKeepsAll | procedimentos/models.py:94 | Dropping empty strings from a list with none leaves it unchanged. |
| Models.TagsOfJoin | procedimentos/models.py:94 | Proper tags joined with commas read back as the same list. |
| Models.Visualizado | procedimentos/models.py:96-100 | Views go up by exactly one, `ultimo_uso` becomes the current time, and no other field changes. |
| Models.IndexOfId | procedimentos/views.py:111 | The lookup by primary key finds a row with that id, and fails exactly when there is none. |
| Models.IndexOfIdUnique | procedimentos/views.py:53 | With unique keys, the lookup finds the one row holding the id. |
| Views.CategoriaParam | procedimentos/views.py:26-27 | An empty `categoria` is no filter. A non-empty one that `int()` rejects, a blank one included, is the `ValueError`. Otherwise the filter is by `int(categoria)`. |
| Views.FiltrarProcedimentos | procedimentos/views.py:11-30 | The search fails with a ValueError exactly when a non-empty `categoria` parameter is not an integer. |
| Views.EtapaTextoFiltra | procedimentos/views.py:16-24 | Active rows, then the text filter when `q` is non-empty, form one filter. |
| Views.EtapaCategoriaFiltra | procedimentos/views.py:26-27 | Adding the category filter, only when given, is one filter by the conjunction. |
| Views.EtapaPrioridadeFiltra | procedimentos/views.py:29-30 | Adding the priority filter, only when given, is one filter by the conjunction. |
| Views.BuscaEhUmFiltro | procedimentos/views.py:16-30 | The whole chain equals one filter by "active, text matches, category matches, priority matches". |
| Views.BuscaCorreta | procedimentos/views.py:16-30 | A row is in the result iff it is active and meets each given criterion; the result is a subsequence of the store and keeps its `-atualizado_em` order. |
| Views.BuscaSemCriterios | procedimentos/views.py:16-30 | With no criteria the result is all active rows. |
| Views.NumPages | procedimentos/views.py:33 | At least one page; the last page is partly or fully filled. |
| Views.Paginar | procedimentos/views.py:33-35 | Page `n` holds at most 10 items, exactly `items[(n-1)*10 + k]`. All but the last are full, and it is non-empty when there are items. `has_next` iff items remain after it; `has_previous` iff `n > 1`. |
| Views.PaginasCobrem | procedimentos/views.py:33-35 | Pages `n`, `n+1`, ... concatenated give the items from `(n-1)*10` on, with nothing lost or repeated. |
| Views.CandidatosPrimeiros | procedimentos/views.py:66-69 | With unique keys, any first `m` candidates are the first `m` qualifying rows of the store. |
| Views.Relacionados | procedimentos/views.py:66-69 | At most 5 rows, each in the store, active, in the viewed row's category, and not the viewed row. With unique keys they are the first such rows: a qualifying row before a listed one is listed. |
| Views.RelacionadosCompletos | procedimentos/views.py:66-69 | Fewer than 5 related rows means every qualifying row is listed; the list keeps the store's order. |
| Views.CorrespondenciasRapidas | procedimentos/views.py:83-90 | A query under 3 characters gives nothing. Otherwise at most 10 active rows, each with the query in its title or tags. With unique keys they are the first such rows: a matching row before a listed one is listed. |
| Views.CorrespondenciasCompletas | procedimentos/views.py:86-90 | Fewer than 10 quick matches for a long enough query means every matching row is listed. |
| Views.DetalheUrl | procedimentos/views.py:99 | The URL starts with `/procedimentos/` and ends with `/`. |
| Views.DetalheUrlIdentifica | procedimentos/views.py:99 | The id reads back from the URL's middle segment. |
| Views.DetalheUrlInjetiva | procedimentos/views.py:99 | Different procedures get different URLs. |
| Views.Projetar | procedimentos/views.py:94-100 | The JSON entry of a procedure carries its id, title, category name, priority label and `/procedimentos/<id>/` URL. |
| Views.ProjetarTodos | procedimentos/views.py:92-100 | One JSON item per procedure, in order, each carrying that procedure's id, title, category name, priority label and URL. |
| Views.BuscaRapida | procedimentos/views.py:83-102 | One item per quick match, in order. Each item has the match's id, title, category name, priority label and `/procedimentos/<id>/` URL; the result is empty for short queries. |
| Views.DecidirReport | procedimentos/views.py:104-120 | Each outcome holds exactly when its condition does. Method invalid iff not a POST. Missing data iff a POST lacks a field or has an empty one. Non-numeric id iff both fields are given and `int()` rejects the id. Not found iff the id is numeric but no row has it. Accepted iff both fields are given and the id exists, and then the accepted id is the one the form gave. |
| Views.ReportIgnoraAtivo | procedimentos/views.py:111 | An archived procedure can still be reported. |
| Views.RespostaReport | procedimentos/views.py:113-122 | `success: true` with no message exactly for an accepted report; each refusal is `success: false` with its own message; a non-numeric id is a server error. |
| Views.TextosDistintos | procedimentos/views.py:118-122 | The three refusal messages have different texts. |
| Admin.PrioridadeChoiceKeys | procedimentos/admin.py:82-87 | The colour table's keys are exactly the priority choices. |
| Admin.StatusChoiceKeys | procedimentos/admin.py:98-103 | The colour table's keys are exactly the status choices. |
| Admin.CorPrioridade | procedimentos/admin.py:81-88 | The colour differs from the grey default iff the priority is a known choice. |
| Admin.CoresPrioridadeDistintas | procedimentos/admin.py:82-87 | Distinct priorities get distinct colours. |
| Admin.CorStatus | procedimentos/admin.py:97-104 | The colour is the grey default iff the status is `arquivado` or unknown. |
| Admin.CoresConhecidas | procedimentos/admin.py:81-104 | The eight colours of the two tables, value by value, and the grey `#6c757d` for any key that is neither a priority nor a status. |
| Admin.ContarAtivos | procedimentos/admin.py:15-16 | The count is the length of the filter "owned, and active". |
| Admin.TotalProcedimentosCliente | procedimentos/admin.py:15-16 | A client's `total_procedimentos` is the number of active rows whose client is that client. |
| Admin.TotalProcedimentosCategoria | procedimentos/admin.py:38-39 | A category's `total_procedimentos` is the number of active rows in that category. |
| Admin.ContarIgnoraInativos | procedimentos/admin.py:38-39 | Inactive rows do not affect the count. |
| Admin.ContarArquivar | procedimentos/admin.py:38-39 | Archiving one owned active row lowers the count by exactly one. |
| Admin.PermissaoInlineHistorico | procedimentos/admin.py:42-49 | The history inline never permits adding or deleting; change follows the user's permission. |
| Admin.PermissaoAdminHistorico | procedimentos/admin.py:139-150 | The history admin never permits adding or changing; delete follows the user's permission. |
| Admin.HistoricoSemAdicaoNoAdmin | procedimentos/admin.py:48-49 | No history entry can be added through either admin. |
| Admin.ReportIds | procedimentos/admin.py:168-170 | The set of report ids is exactly the ids present. |
| Admin.MarcarProcessados | procedimentos/admin.py:168-170 | Selected reports become processed, the rest keep their flag, and no other field changes. |
| Admin.MarcarIdempotente | procedimentos/admin.py:168-170 | Applying the action twice equals applying it once. |
| Admin.ContarSelecionados | procedimentos/admin.py:170 | The count of updated rows is the number of reports whose id is selected. |
| Admin.ContarInterseccao | procedimentos/admin.py:170 | With unique ids, the updated count is the size of the selection intersected with the ids present. |
| Admin.ContagemIgualSelecao | procedimentos/admin.py:170-171 | When every selected id exists, the reported count equals the size of the selection. |
| Store.LocalizarAtivo | procedimentos/views.py:53 | `get_object_or_404(..., ativo=True)` finds an active row with that id. With unique keys, it fails exactly when no such row is active. |
| Store.ComoSalvo | procedimentos/admin.py:123-126 | On creation: a fresh id, `criado_por` is the user, creation and update time are now, zero views, no last use. On change: id, creation time, views and last use come from the stored row, and `criado_por` comes from the form. Either way the form's editable fields are kept. |
| Store.FilterKeepsUniqueIds | procedimentos/admin.py:126 | Removing rows keeps primary keys unique. |
| Store.ColocarNaFrente | procedimentos/admin.py:126 | Putting the saved row first, after removing the stored row with its id, keeps keys unique and below the counter. It also keeps the `-atualizado_em` order when the row is the most recent. |
| Store.AcrescentarReport | procedimentos/views.py:113 | A report with the next id can be appended without clashing with any other id. |
| Store.KnowledgeBase.constructor | procedimentos/models.py:102-126 | An empty store that satisfies the invariant. |
| Store.KnowledgeBase.IncrementarVisualizacao | procedimentos/models.py:96-100 | Only that row changes, as `Visualizado` says; the invariant is kept. |
| Store.KnowledgeBase.DetalheProcedimento | procedimentos/views.py:52-76 | A missing or inactive id is not found, and nothing changes. Otherwise the row's views go up by one, and exactly one `visualizado` entry for that procedure and user is appended. The page shows the updated row and its related rows. Reports are never touched. |
| Store.KnowledgeBase.RegistrarDecisao | procedimentos/views.py:109-120 | An accepted decision appends exactly one new unprocessed report and advances the report id counter by one. Any other decision leaves the reports and the counter unchanged. Procedures and history are never touched, and the invariant is kept. |
| Store.KnowledgeBase.ReportarProblema | procedimentos/views.py:104-122 | Exactly one new unprocessed report iff the decision accepts, with the response that decision gives; the report id counter advances only then. Every failure leaves reports unchanged. Procedures and history are never touched. |
| Store.KnowledgeBase.SalvarProcedimento | procedimentos/admin.py:123-134 | The saved row is `ComoSalvo` of the form. It replaces any stored row with its id and comes first as the newest. Exactly one `criado` or `editado` entry is appended, and the invariant is kept. A creation advances the procedure id counter by one; a change leaves it as it was. |
| Store.KnowledgeBase.MarcarComoProcessado | procedimentos/admin.py:168-171 | Reports become `MarcarProcessados` of the old ones, and the count is `ContarSelecionados`. That count equals the selection's size when all selected ids exist. Nothing else changes. |
| Store.VisualizarDuasVezes | procedimentos/views.py:52-63 | Two detail views of one procedure add exactly two views and two history entries. |

## Left out

- Views.Paginar: the page number must be valid (`1 <= n <= num_pages`). `Paginator.get_page` clamps a missing, non-numeric or out-of-range page number to the first or last page. That clamping lives in Django and is not part of this model.
- Text.ParseInt: `int()` also accepts `_` digit separators and non-ASCII decimal digits. Those inputs are read here as non-numeric.
- Text.IContains: `icontains` is modelled as ASCII lower-casing plus substring search. The database collation's case folding of accented letters is not modelled.
- Store.KnowledgeBase.SalvarProcedimento: requires that the current time is not earlier than any stored `atualizado_em`. The store keeps rows physically in `-atualizado_em` order, and a clock that goes back would break that order.
- Store.KnowledgeBase.SalvarProcedimento: also requires that a change (`change=True`) is for a stored procedure. The admin only offers the change form for an existing row.
- Store.LocalizarAtivo: the "fails exactly when" half assumes unique primary keys. The store's invariant guarantees them.
- Views.Relacionados: the "first qualifying rows" half holds under unique primary keys. A sequence with a repeated row could list a late copy of an early row. The store's invariant rules that out.
- Views.CorrespondenciasRapidas: the "first matching rows" half holds under unique primary keys, for the same reason.
- Images, `imagem_preview`, and all HTML built with `format_html` (colour swatch, icon, badges): only the colour choice is modelled.
- The admin site's header and titles are display settings, not behaviour.
- URL routing, `login_required` authentication, request and response objects, template rendering, and `message_user` are left out. The report response is modelled as a value.
- The ORM is replaced by in-memory sequences. Left out with it:
  - `select_related`;
  - indexes;
  - cascade and `SET_NULL` deletion;
  - deleting and re-ordering rows other than through `save_model`;
  - `Cliente`, `Categoria` and history ordering.
- `timezone.now()` and `auto_now`/`auto_now_add` become a time parameter.
- Concurrent requests (two view-count updates racing) are not modelled; each operation runs alone.
- Rows are values inside the store's sequences. Two Python objects that alias the same database row are not modelled; each operation reads the row fresh from the store.
- `Report` rows carry the procedure's id rather than a reference, and `Procedimento` embeds its `Categoria` record.
- `search_fields`, `list_filter` and `list_editable` of the admin classes are left out. They are Django's own list-page machinery.

Two behaviours of the code are easy to miss:

- `HistoricoProcedimentoAdmin` does not override `has_delete_permission`. History entries can therefore be deleted through the standalone history admin by a user with delete permission. Only the inline (`can_delete = False`) forbids deletion. `Admin.PermissaoAdminHistorico` states this.
- A non-numeric `procedimento_id` in report intake makes the lookup raise `ValueError`, which `except Procedimento.DoesNotExist` does not catch. The request ends in a server error, not in "Procedimento não encontrado.". A non-numeric `categoria` in the search ends the same way.
