/**
 The two readings of a licence's free-text status: the marker colour
 (`corPorStatus`) and the counter it adds to (the `if`/`else if` chain of
 `atualizarMapaELista`). Both test substrings of the lower-cased status and
 take the first match, but in different orders and with different words.
 */
module Status {
  import opened Opcoes
  import opened Texto

  const VERDE: string := "#2ecc71"
  const AMARELO: string := "#f1c40f"
  const LARANJA: string := "#e67e22"
  const AZUL: string := "#3498db"
  const CINZA: string := "#808080"

  /**
   `corPorStatus(status)`: an empty status is grey; otherwise the first of
   "aprovado", "em análise", "pendente", "iniciar" found in the lower-cased
   status picks green, yellow, orange or blue, and no match is grey.
   */
  function CorPorStatus(status: string): (cor: string)
    ensures status == "" ==> cor == CINZA
    ensures var s := ToLower(status);
      && (cor == VERDE <==> status != "" && Includes(s, "aprovado"))
      && (cor == AMARELO <==>
            status != "" && !Includes(s, "aprovado") && Includes(s, "em análise"))
      && (cor == LARANJA <==>
            status != "" && !Includes(s, "aprovado") && !Includes(s, "em análise")
            && Includes(s, "pendente"))
      && (cor == AZUL <==>
            status != "" && !Includes(s, "aprovado") && !Includes(s, "em análise")
            && !Includes(s, "pendente") && Includes(s, "iniciar"))
      && (cor == CINZA <==>
            status == "" || (!Includes(s, "aprovado") && !Includes(s, "em análise")
                             && !Includes(s, "pendente") && !Includes(s, "iniciar")))
  {
    if status == "" then CINZA
    else
      var s := ToLower(status);
      if Includes(s, "aprovado") then VERDE
      else if Includes(s, "em análise") then AMARELO
      else if Includes(s, "pendente") then LARANJA
      else if Includes(s, "iniciar") then AZUL
      else CINZA
  }

  /** The four counters at the top of the page. */
  datatype Balde = Aprovado | EmAnalise | Pendente | AIniciar

  /**
   The counter an included licence adds to: the first of "aprov",
   "em análise" or "em analise", "iniciar", "pendente" found in the
   lower-cased status; no match adds to no counter.
   */
  function BaldeDe(status: string): (b: Option<Balde>)
    ensures var s := ToLower(status);
      && (b == Some(Aprovado) <==> Includes(s, "aprov"))
      && (b == Some(EmAnalise) <==>
            !Includes(s, "aprov") && (Includes(s, "em análise") || Includes(s, "em analise")))
      && (b == Some(AIniciar) <==>
            !Includes(s, "aprov") && !Includes(s, "em análise") && !Includes(s, "em analise")
            && Includes(s, "iniciar"))
      && (b == Some(Pendente) <==>
            !Includes(s, "aprov") && !Includes(s, "em análise") && !Includes(s, "em analise")
            && !Includes(s, "iniciar") && Includes(s, "pendente"))
  {
    var s := ToLower(status);
    if Includes(s, "aprov") then Some(Aprovado)
    else if Includes(s, "em análise") || Includes(s, "em analise") then Some(EmAnalise)
    else if Includes(s, "iniciar") then Some(AIniciar)
    else if Includes(s, "pendente") then Some(Pendente)
    else None
  }

  /** Letter case never changes the colour. */
  lemma {:induction false} CorIgnoraCaixa(status: string)
    ensures CorPorStatus(ToLower(status)) == CorPorStatus(status)
  {
    ToLowerIdempotent(status);
    assert |ToLower(status)| == |status|;
  }

  /** Letter case never changes the counter. */
  lemma {:induction false} BaldeIgnoraCaixa(status: string)
    ensures BaldeDe(ToLower(status)) == BaldeDe(status)
  {
    ToLowerIdempotent(status);
  }

  /** Every green marker is counted as approved: "aprovado" contains "aprov". */
  lemma {:induction false} VerdeContaAprovado(status: string)
    requires CorPorStatus(status) == VERDE
    ensures BaldeDe(status) == Some(Aprovado)
  {
    IncludesPiece(ToLower(status), "aprovado", "", "aprov", "ado");
  }

  /** A yellow marker is counted as under review, unless its status also mentions "aprov". */
  lemma {:induction false} AmareloContaEmAnalise(status: string)
    requires CorPorStatus(status) == AMARELO
    requires !Includes(ToLower(status), "aprov")
    ensures BaldeDe(status) == Some(EmAnalise)
  {
  }

  /**
   The two orders disagree: a status mentioning both "pendente" and "iniciar"
   (and none of the earlier words) is drawn orange, as pending, but counted
   under "to start".
   */
  lemma {:induction false} PendenteEIniciarDivergem(status: string)
    requires var s := ToLower(status);
      !Includes(s, "aprov") && !Includes(s, "em análise") && !Includes(s, "em analise")
      && Includes(s, "pendente") && Includes(s, "iniciar")
    ensures CorPorStatus(status) == LARANJA
    ensures BaldeDe(status) == Some(AIniciar)
  {
    var s := ToLower(status);
    if Includes(s, "aprovado") {
      IncludesPiece(s, "aprovado", "", "aprov", "ado");
    }
  }

  /**
   "em analise" without the accent is counted as under review but drawn grey,
   and so is an approval spelt "aprovada": the counter matches "aprov", the
   colour only "aprovado".
   */
  lemma {:induction false} CinzaMasContado(status: string)
    requires var s := ToLower(status);
      !Includes(s, "aprovado") && !Includes(s, "em análise") && !Includes(s, "pendente")
      && !Includes(s, "iniciar") && (Includes(s, "aprov") || Includes(s, "em analise"))
    ensures CorPorStatus(status) == CINZA
    ensures BaldeDe(status).Some?
  {
  }
}
