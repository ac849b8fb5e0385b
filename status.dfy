/**
 * The order lifecycle states (lanchonete.py, `Pedido.atualizar_status`): the source keeps
 * the status as a string and accepts exactly five spellings.
 */
module OrderStatus {
  import opened Optional

  datatype Status = Pending | InPreparation | Ready | Delivered | Cancelled

  /** The string the source stores for each status. */
  function Name(s: Status): string {
    match s
    case Pending => "Pendente"
    case InPreparation => "Em Preparo"
    case Ready => "Pronto"
    case Delivered => "Entregue"
    case Cancelled => "Cancelado"
  }

  /** `novo_status in status_validos`: the status a string names, if it is one of the five. */
  function Parse(s: string): (r: Option<Status>)
    ensures r.Some? ==> Name(r.value) == s
    ensures r.None? <==> s !in ["Pendente", "Em Preparo", "Pronto", "Entregue", "Cancelado"]
  {
    if s == "Pendente" then Some(Pending)
    else if s == "Em Preparo" then Some(InPreparation)
    else if s == "Pronto" then Some(Ready)
    else if s == "Entregue" then Some(Delivered)
    else if s == "Cancelado" then Some(Cancelled)
    else None
  }

  /** Every status is accepted under its own name, and the five names are distinct. */
  lemma NameThenParse(s: Status)
    ensures Parse(Name(s)) == Some(s)
  {
  }
}
