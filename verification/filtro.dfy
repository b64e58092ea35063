/**
 `atualizarMapaELista`: read the three filter controls, clear the map layer
 and the list, then walk the loaded features in order; a feature passing the
 status, process and enterprise tests goes back on the layer, gets a list
 entry and adds to at most one counter. An empty list gets a placeholder, and
 the counters present on the page show the new counts.

 The page is a value: the map layer is the sequence of the indices (into the
 loaded features) of the markers on it, the list is a sequence of entries,
 and each counter is either missing from the page or shows a number.
 */
module Filtro {
  import opened Opcoes
  import opened Texto
  import opened Normaliza
  import opened Datas
  import opened Status

  /**
   The properties of one loaded feature that the filter and the list read,
   each `""` when the property is missing (the source's `p.x || ""`).
   */
  datatype Pedido = Pedido(
    status: string,
    processo: string,
    empreendimento: string,
    tipo: string,
    validade: string)

  /** The values of the three filter controls; `None` is a control missing from the page. */
  datatype Controles = Controles(
    filtroStatus: Option<string>,
    buscaProcesso: Option<string>,
    buscaEmpreendimento: Option<string>)

  /** The selected status and the two normalised search terms. */
  datatype Criterios = Criterios(status: string, termo: string, termoEmp: string)

  const TODOS: string := "todos"

  /**
   What the controls select: a missing status control means `"todos"`, a
   missing search box means no search, and each search text counts only
   through its normal form.
   */
  function CriteriosDe(c: Controles): (k: Criterios)
    ensures Normalizado(k.termo) && Normalizado(k.termoEmp)
    ensures c.filtroStatus.None? ==> k.status == TODOS
    ensures c.filtroStatus.Some? ==> k.status == c.filtroStatus.value
    ensures c.buscaProcesso.None? ==> k.termo == ""
    ensures c.buscaProcesso.Some? ==> k.termo == NormalizaTexto(c.buscaProcesso.value)
    ensures c.buscaEmpreendimento.None? ==> k.termoEmp == ""
    ensures c.buscaEmpreendimento.Some? ==> k.termoEmp == NormalizaTexto(c.buscaEmpreendimento.value)
  {
    Criterios(
      c.filtroStatus.GetOr(TODOS),
      NormalizaTexto(c.buscaProcesso.GetOr("")),
      NormalizaTexto(c.buscaEmpreendimento.GetOr("")))
  }

  /**
   The start of `atualizarMapaELista`: each search text is trimmed, then
   normalised. Trimming changes nothing here, since normalising removes
   whitespace anyway.
   */
  method LerCriterios(c: Controles) returns (k: Criterios)
    ensures k == CriteriosDe(c)
  {
    var status := c.filtroStatus.GetOr(TODOS);
    var termo := NormalizaTexto(Trim(c.buscaProcesso.GetOr("")));
    var termoEmp := NormalizaTexto(Trim(c.buscaEmpreendimento.GetOr("")));
    NormalizaTrim(c.buscaProcesso.GetOr(""));
    NormalizaTrim(c.buscaEmpreendimento.GetOr(""));
    k := Criterios(status, termo, termoEmp);
  }

  // ---------------------------------------------------------------------------
  // Inclusion

  /**
   The loop body's `inclui` flag: the status test, then the process search
   only while `inclui` holds and the term is non-empty, then the enterprise
   search likewise.
   */
  predicate Inclui(k: Criterios, p: Pedido) {
    var porStatus := StatusConfere(k, p);
    var porProcesso := if porStatus && k.termo != "" then Includes(NormalizaTexto(p.processo), k.termo) else porStatus;
    if porProcesso && k.termoEmp != "" then Includes(NormalizaTexto(p.empreendimento), k.termoEmp) else porProcesso
  }

  /** The status test alone: everything under "todos", else equality ignoring case. */
  predicate StatusConfere(k: Criterios, p: Pedido) {
    k.status == TODOS || ToLower(p.status) == ToLower(k.status)
  }

  /**
   A feature is included exactly when all three tests pass, each search term
   occurring somewhere in the normalised field; an empty term occurs everywhere.
   */
  lemma {:induction false} InclusaoSeESoSe(k: Criterios, p: Pedido)
    ensures Inclui(k, p) <==>
      StatusConfere(k, p)
      && Occurs(NormalizaTexto(p.processo), k.termo)
      && Occurs(NormalizaTexto(p.empreendimento), k.termoEmp)
  {
    IncludesIffOccurs(NormalizaTexto(p.processo), k.termo);
    IncludesIffOccurs(NormalizaTexto(p.empreendimento), k.termoEmp);
    IncludesEmpty(NormalizaTexto(p.processo));
    IncludesEmpty(NormalizaTexto(p.empreendimento));
  }

  /** With both search terms empty, only the status test decides. */
  lemma {:induction false} SemBuscaSoStatus(k: Criterios, p: Pedido)
    requires k.termo == "" && k.termoEmp == ""
    ensures Inclui(k, p) <==> StatusConfere(k, p)
  {
  }

  /**
   The status filter is an exact match ignoring case, not a substring test:
   a feature whose status differs from the selected one in any other way is
   left out, whatever the search terms.
   */
  lemma {:induction false} StatusDiferenteExclui(k: Criterios, p: Pedido)
    requires k.status != TODOS && ToLower(p.status) != ToLower(k.status)
    ensures !Inclui(k, p)
  {
  }

  /**
   A feature with status "Pendente de documentação" is left out when
   "Pendente" is selected, whatever the search terms.
   */
  lemma {:induction false} PendenteDeDocumentacaoExcluido(p: Pedido, termo: string, termoEmp: string)
    requires p.status == "Pendente de documentação"
    ensures !Inclui(Criterios("Pendente", termo, termoEmp), p)
  {
    assert |ToLower(p.status)| != |ToLower("Pendente")|;
  }

  /** The loop's test as a function value, for the list and count definitions below. */
  function Teste(k: Criterios): Pedido -> bool {
    p => Inclui(k, p)
  }

  /** The counter a feature's status selects. */
  function BaldeDoPedido(p: Pedido): Option<Balde> {
    BaldeDe(p.status)
  }

  // ---------------------------------------------------------------------------
  // The selected features, in load order
  //
  // The definitions from here to the page are stated for any test `f` and
  // any counter choice `g`; the page instantiates them with `Teste(k)` and
  // `BaldeDoPedido`.

  /** The indices of the features of `ps` passing `f`, in load order. */
  function Selecionados(f: Pedido -> bool, ps: seq<Pedido>): (ix: seq<nat>)
    ensures |ix| <= |ps|
    ensures forall j :: 0 <= j < |ix| ==> ix[j] < |ps|
    ensures forall a, b :: 0 <= a < b < |ix| ==> ix[a] < ix[b]
  {
    if ps == [] then []
    else
      var n := |ps| - 1;
      Selecionados(f, ps[..n]) + (if f(ps[n]) then [n] else [])
  }

  /** An index is selected if and only if its feature passes the test. */
  lemma {:induction false} SelecionadosSeESoSe(f: Pedido -> bool, ps: seq<Pedido>, i: int)
    ensures i in Selecionados(f, ps) <==> 0 <= i < |ps| && f(ps[i])
    decreases |ps|
  {
    if ps != [] {
      var n := |ps| - 1;
      SelecionadosSeESoSe(f, ps[..n], i);
      if 0 <= i < n {
        assert ps[..n][i] == ps[i];
      }
    }
  }

  /** The features the filter keeps, in load order. */
  function Incluidos(k: Criterios, ps: seq<Pedido>): seq<nat> {
    Selecionados(Teste(k), ps)
  }

  /** A feature is on the layer if and only if it passes the filter. */
  lemma {:induction false} IncluidosSeESoSe(k: Criterios, ps: seq<Pedido>, i: int)
    ensures i in Incluidos(k, ps) <==> 0 <= i < |ps| && Inclui(k, ps[i])
  {
    SelecionadosSeESoSe(Teste(k), ps, i);
  }

  function Indices(n: nat): (ix: seq<nat>)
    ensures |ix| == n && forall j :: 0 <= j < n ==> ix[j] == j
  {
    seq(n, j requires 0 <= j => j as nat)
  }

  /** A test every feature passes selects every index, in order. */
  lemma {:induction false} SelecionaTodos(f: Pedido -> bool, ps: seq<Pedido>)
    requires forall p :: f(p)
    ensures Selecionados(f, ps) == Indices(|ps|)
    decreases |ps|
  {
    if ps != [] {
      SelecionaTodos(f, ps[..|ps| - 1]);
    }
  }

  /** With "todos" selected and no search text, every loaded feature is shown, in order. */
  lemma {:induction false} TodosSemBusca(k: Criterios, ps: seq<Pedido>)
    requires k.status == TODOS && k.termo == "" && k.termoEmp == ""
    ensures Incluidos(k, ps) == Indices(|ps|)
  {
    SelecionaTodos(Teste(k), ps);
  }

  /** The same, from the controls: no status control or "todos", and blank search boxes. */
  lemma {:induction false} ControlesTodosSemBusca(c: Controles, ps: seq<Pedido>)
    requires c.filtroStatus.None? || c.filtroStatus == Some(TODOS)
    requires forall j :: 0 <= j < |c.buscaProcesso.GetOr("")| ==> IsSpace(c.buscaProcesso.GetOr("")[j])
    requires forall j :: 0 <= j < |c.buscaEmpreendimento.GetOr("")| ==> IsSpace(c.buscaEmpreendimento.GetOr("")[j])
    ensures Incluidos(CriteriosDe(c), ps) == Indices(|ps|)
  {
    NormalizaSpaces(c.buscaProcesso.GetOr(""));
    NormalizaSpaces(c.buscaEmpreendimento.GetOr(""));
    TodosSemBusca(CriteriosDe(c), ps);
  }

  // ---------------------------------------------------------------------------
  // Counting

  /** The features of `ps` passing `f` whose counter under `g` is `b`. */
  function Conta(f: Pedido -> bool, g: Pedido -> Option<Balde>, ps: seq<Pedido>, b: Balde): (n: nat)
    ensures n <= |ps|
  {
    if ps == [] then 0
    else
      var m := |ps| - 1;
      Conta(f, g, ps[..m], b) + (if f(ps[m]) && g(ps[m]) == Some(b) then 1 else 0)
  }

  /** The features of `ps` passing `f` that add to no counter. */
  function SemBalde(f: Pedido -> bool, g: Pedido -> Option<Balde>, ps: seq<Pedido>): (n: nat)
    ensures n <= |ps|
  {
    if ps == [] then 0
    else
      var m := |ps| - 1;
      SemBalde(f, g, ps[..m]) + (if f(ps[m]) && g(ps[m]).None? then 1 else 0)
  }

  /** The four counters as computed in one pass, as the loop does. */
  datatype Contagem = Contagem(aprovado: nat, emAnalise: nat, pendente: nat, aIniciar: nat)

  const ZERO := Contagem(0, 0, 0, 0)

  function Campo(c: Contagem, b: Balde): nat {
    match b
    case Aprovado => c.aprovado
    case EmAnalise => c.emAnalise
    case Pendente => c.pendente
    case AIniciar => c.aIniciar
  }

  /** The `if`/`else if` chain: add one to the counter `b` names, if any, and leave the others. */
  function Soma(c: Contagem, b: Option<Balde>): (d: Contagem)
    ensures forall x: Balde :: Campo(d, x) == Campo(c, x) + (if b == Some(x) then 1 else 0)
    ensures Total(d) == Total(c) + (if b.Some? then 1 else 0)
  {
    match b
    case None => c
    case Some(Aprovado) => c.(aprovado := c.aprovado + 1)
    case Some(EmAnalise) => c.(emAnalise := c.emAnalise + 1)
    case Some(Pendente) => c.(pendente := c.pendente + 1)
    case Some(AIniciar) => c.(aIniciar := c.aIniciar + 1)
  }

  /** The counts after the loop has seen the features `ps`. */
  function ContaTudo(f: Pedido -> bool, g: Pedido -> Option<Balde>, ps: seq<Pedido>): Contagem {
    if ps == [] then ZERO
    else
      var m := |ps| - 1;
      var c := ContaTudo(f, g, ps[..m]);
      if f(ps[m]) then Soma(c, g(ps[m])) else c
  }

  /** The one-pass count agrees with counting each counter on its own. */
  lemma {:induction false} ContaTudoConta(f: Pedido -> bool, g: Pedido -> Option<Balde>, ps: seq<Pedido>, b: Balde)
    ensures Campo(ContaTudo(f, g, ps), b) == Conta(f, g, ps, b)
    decreases |ps|
  {
    if ps != [] {
      ContaTudoConta(f, g, ps[..|ps| - 1], b);
    }
  }

  /** The four fields of the one-pass count. */
  lemma {:induction false} ContaTudoCampos(f: Pedido -> bool, g: Pedido -> Option<Balde>, ps: seq<Pedido>)
    ensures ContaTudo(f, g, ps) == Contagem(
      Conta(f, g, ps, Aprovado), Conta(f, g, ps, EmAnalise), Conta(f, g, ps, Pendente), Conta(f, g, ps, AIniciar))
  {
    var c := ContaTudo(f, g, ps);
    ContaTudoConta(f, g, ps, Aprovado);
    ContaTudoConta(f, g, ps, EmAnalise);
    ContaTudoConta(f, g, ps, Pendente);
    ContaTudoConta(f, g, ps, AIniciar);
    assert c.emAnalise == Campo(c, EmAnalise);
    assert c.pendente == Campo(c, Pendente);
    assert c.aIniciar == Campo(c, AIniciar);
  }

  /** The four counters together. */
  function Total(c: Contagem): nat {
    c.aprovado + c.emAnalise + c.pendente + c.aIniciar
  }

  /** In the one pass, every selected feature adds one to the total or one to the unbucketed count. */
  lemma {:induction false} UmaPassada(f: Pedido -> bool, g: Pedido -> Option<Balde>, ps: seq<Pedido>)
    ensures Total(ContaTudo(f, g, ps)) + SemBalde(f, g, ps) == |Selecionados(f, ps)|
    decreases |ps|
  {
    if ps != [] {
      UmaPassada(f, g, ps[..|ps| - 1]);
    }
  }

  /**
   Each selected feature is counted exactly once, under one counter or under
   none; so the four counters add up to at most the number shown.
   */
  lemma {:induction false} SomaContagem(f: Pedido -> bool, g: Pedido -> Option<Balde>, ps: seq<Pedido>)
    ensures Conta(f, g, ps, Aprovado) + Conta(f, g, ps, EmAnalise) + Conta(f, g, ps, Pendente)
      + Conta(f, g, ps, AIniciar) + SemBalde(f, g, ps) == |Selecionados(f, ps)|
    ensures Conta(f, g, ps, Aprovado) + Conta(f, g, ps, EmAnalise) + Conta(f, g, ps, Pendente)
      + Conta(f, g, ps, AIniciar) <= |Selecionados(f, ps)|
  {
    UmaPassada(f, g, ps);
    ContaTudoCampos(f, g, ps);
  }

  // ---------------------------------------------------------------------------
  // The page

  const NAO_INFORMADO: string := "Não informado"
  const NAO_INFORMADA: string := "Não informada"
  const NENHUM_PEDIDO: string := "Nenhum pedido encontrado para o filtro/busca selecionado."

  /** `valor || padrao`: the empty string is falsy. */
  function OuPadrao(valor: string, padrao: string): string {
    if valor == "" then padrao else valor
  }

  /** What one list entry shows, and the CSS class of its validity line. */
  datatype Item = Item(
    titulo: string,
    processo: string,
    tipo: string,
    status: string,
    validade: string,
    classe: Validade)

  /** A list entry for the feature at `indice`, or the placeholder message. */
  datatype Linha = Licenca(indice: nat, item: Item) | Aviso(texto: string)

  /** A counter element: missing from the page, or showing a number. */
  datatype Contador = Ausente | Mostra(valor: nat)

  datatype Pagina = Pagina(
    camada: seq<nat>,
    lista: seq<Linha>,
    aprovado: Contador,
    emAnalise: Contador,
    aIniciar: Contador,
    pendente: Contador)

  /**
   The list entry of one feature, with today's day number `hoje` for its
   validity class: every field shows something, a missing property reading
   "Não informado" ("Não informada" for the date).
   */
  function ItemDe(p: Pedido, hoje: int): (it: Item)
    ensures it.titulo != "" && it.processo != "" && it.tipo != "" && it.status != "" && it.validade != ""
    ensures p.empreendimento == "" ==> it.titulo == NAO_INFORMADO
    ensures p.empreendimento != "" ==> it.titulo == p.empreendimento
    ensures p.processo == "" ==> it.processo == NAO_INFORMADO
    ensures p.processo != "" ==> it.processo == p.processo
    ensures p.tipo == "" ==> it.tipo == NAO_INFORMADO
    ensures p.tipo != "" ==> it.tipo == p.tipo
    ensures p.status == "" ==> it.status == NAO_INFORMADO
    ensures p.status != "" ==> it.status == p.status
    ensures p.validade == "" ==> it.validade == NAO_INFORMADA
    ensures p.validade != "" ==> it.validade == p.validade
    ensures it.classe == ClasseValidade(p.validade, hoje)
  {
    Item(OuPadrao(p.empreendimento, NAO_INFORMADO), OuPadrao(p.processo, NAO_INFORMADO),
         OuPadrao(p.tipo, NAO_INFORMADO), OuPadrao(p.status, NAO_INFORMADO),
         OuPadrao(p.validade, NAO_INFORMADA), ClasseValidade(p.validade, hoje))
  }

  /** `ItemDe` as a function value. */
  function Entrada(hoje: int): Pedido -> Item {
    p => ItemDe(p, hoje)
  }

  /** The list entries `e` makes for the features at indices `ix`, in that order. */
  function Itens(e: Pedido -> Item, ps: seq<Pedido>, ix: seq<nat>): (ls: seq<Linha>)
    requires forall j :: 0 <= j < |ix| ==> ix[j] < |ps|
    ensures |ls| == |ix|
  {
    if ix == [] then []
    else
      var n := |ix| - 1;
      Itens(e, ps, ix[..n]) + [Licenca(ix[n], e(ps[ix[n]]))]
  }

  /** Entry `j` of the list is the entry of the `j`-th index, so the list follows the layer's order. */
  lemma {:induction false} ItensSpec(e: Pedido -> Item, ps: seq<Pedido>, ix: seq<nat>)
    requires forall j :: 0 <= j < |ix| ==> ix[j] < |ps|
    ensures forall j :: 0 <= j < |ix| ==> Itens(e, ps, ix)[j] == Licenca(ix[j], e(ps[ix[j]]))
    decreases |ix|
  {
    if ix != [] {
      var n := |ix| - 1;
      var init := ix[..n];
      ItensSpec(e, ps, init);
      var ls := Itens(e, ps, ix);
      assert ls == Itens(e, ps, init) + [Licenca(ix[n], e(ps[ix[n]]))];
      forall j | 0 <= j < |ix|
        ensures ls[j] == Licenca(ix[j], e(ps[ix[j]]))
      {
        if j < n {
          assert init[j] == ix[j];
          assert ls[j] == Itens(e, ps, init)[j];
        }
      }
    }
  }

  /** One more index appends one more entry. */
  lemma {:induction false} ItensMaisUm(e: Pedido -> Item, ps: seq<Pedido>, ix: seq<nat>, i: nat)
    requires forall j :: 0 <= j < |ix| ==> ix[j] < |ps|
    requires i < |ps|
    ensures Itens(e, ps, ix + [i]) == Itens(e, ps, ix) + [Licenca(i, e(ps[i]))]
  {
    assert (ix + [i])[..|ix|] == ix;
  }

  /** What one more feature adds to the selection and to the counts. */
  lemma {:induction false} Passo(f: Pedido -> bool, g: Pedido -> Option<Balde>, dados: seq<Pedido>, i: nat)
    requires i < |dados|
    ensures Selecionados(f, dados[..i + 1])
      == Selecionados(f, dados[..i]) + (if f(dados[i]) then [i] else [])
    ensures ContaTudo(f, g, dados[..i + 1])
      == if f(dados[i]) then Soma(ContaTudo(f, g, dados[..i]), g(dados[i])) else ContaTudo(f, g, dados[..i])
  {
    var ps := dados[..i + 1];
    assert ps[..i] == dados[..i];
    assert ps[i] == dados[i];
  }

  /** `if (el) el.textContent = n`: a missing counter stays missing. */
  function Atualiza(c: Contador, n: nat): (r: Contador)
    ensures r.Ausente? <==> c.Ausente?
    ensures c.Mostra? ==> r == Mostra(n)
  {
    if c.Ausente? then Ausente else Mostra(n)
  }

  /**
   `atualizarMapaELista()` over the loaded features `dados`, with today's day
   number `hoje`. Whatever `pagina` showed before is discarded: the new layer,
   list and counts depend only on the controls and the data.
   */
  method AtualizarMapaELista(pagina: Pagina, controles: Controles, dados: seq<Pedido>, hoje: int)
    returns (nova: Pagina)
    ensures var k := CriteriosDe(controles);
      && nova.camada == Incluidos(k, dados)
      && (Incluidos(k, dados) != [] ==> nova.lista == Itens(Entrada(hoje), dados, Incluidos(k, dados)))
      && (Incluidos(k, dados) == [] ==> nova.lista == [Aviso(NENHUM_PEDIDO)])
      && nova.aprovado == Atualiza(pagina.aprovado, Conta(Teste(k), BaldeDoPedido, dados, Aprovado))
      && nova.emAnalise == Atualiza(pagina.emAnalise, Conta(Teste(k), BaldeDoPedido, dados, EmAnalise))
      && nova.aIniciar == Atualiza(pagina.aIniciar, Conta(Teste(k), BaldeDoPedido, dados, AIniciar))
      && nova.pendente == Atualiza(pagina.pendente, Conta(Teste(k), BaldeDoPedido, dados, Pendente))
    ensures Aviso(NENHUM_PEDIDO) in nova.lista <==> nova.camada == []
  {
    var k := LerCriterios(controles);
    nova := MontarPagina(pagina, Teste(k), BaldeDoPedido, Entrada(hoje), dados);
  }

  /**
   The page after the loop over `dados` with test `inclui`, counter choice
   `balde` and list entries `entrada`: the placeholder when nothing passed,
   and the counters present on `pagina` showing the new counts.
   */
  method MontarPagina(
    pagina: Pagina, inclui: Pedido -> bool, balde: Pedido -> Option<Balde>, entrada: Pedido -> Item,
    dados: seq<Pedido>)
    returns (nova: Pagina)
    ensures nova.camada == Selecionados(inclui, dados)
    ensures nova.camada != [] ==> nova.lista == Itens(entrada, dados, nova.camada)
    ensures nova.camada == [] ==> nova.lista == [Aviso(NENHUM_PEDIDO)]
    ensures nova.aprovado == Atualiza(pagina.aprovado, Conta(inclui, balde, dados, Aprovado))
    ensures nova.emAnalise == Atualiza(pagina.emAnalise, Conta(inclui, balde, dados, EmAnalise))
    ensures nova.aIniciar == Atualiza(pagina.aIniciar, Conta(inclui, balde, dados, AIniciar))
    ensures nova.pendente == Atualiza(pagina.pendente, Conta(inclui, balde, dados, Pendente))
    ensures Aviso(NENHUM_PEDIDO) in nova.lista <==> nova.camada == []
  {
    var camada, lista, cont := Percorre(inclui, balde, entrada, dados);
    if lista == [] {
      lista := [Aviso(NENHUM_PEDIDO)];
    } else {
      ItensSpec(entrada, dados, camada);
      assert forall j :: 0 <= j < |lista| ==> lista[j].Licenca?;
    }
    ContaTudoCampos(inclui, balde, dados);
    nova := Pagina(camada, lista,
                   Atualiza(pagina.aprovado, cont.aprovado),
                   Atualiza(pagina.emAnalise, cont.emAnalise),
                   Atualiza(pagina.aIniciar, cont.aIniciar),
                   Atualiza(pagina.pendente, cont.pendente));
  }

  /**
   The loop of `atualizarMapaELista`: each feature passing `inclui`, in
   order, goes back on the layer, gets the list entry `entrada` makes and
   adds to the counter `balde` names.
   */
  method Percorre(
    inclui: Pedido -> bool, balde: Pedido -> Option<Balde>, entrada: Pedido -> Item, dados: seq<Pedido>)
    returns (camada: seq<nat>, lista: seq<Linha>, cont: Contagem)
    ensures camada == Selecionados(inclui, dados)
    ensures lista == Itens(entrada, dados, camada)
    ensures cont == ContaTudo(inclui, balde, dados)
  {
    camada, lista, cont := [], [], ZERO;
    var i := 0;
    while i < |dados|
      invariant 0 <= i <= |dados|
      invariant camada == Selecionados(inclui, dados[..i])
      invariant lista == Itens(entrada, dados, camada)
      invariant cont == ContaTudo(inclui, balde, dados[..i])
    {
      Passo(inclui, balde, dados, i);
      if inclui(dados[i]) {
        cont := Soma(cont, balde(dados[i]));
        ItensMaisUm(entrada, dados, camada, i);
        camada := camada + [i];
        lista := lista + [Licenca(i, entrada(dados[i]))];
      }
      i := i + 1;
    }
    assert dados[..i] == dados;
  }
}
