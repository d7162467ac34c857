/**
 * The reservations list: id-to-name tables for rooms and users, the columns
 * (one of them for administrators only), the actions each row offers, and
 * the state of the cancellation modal.
 */
module Reservas {
  import opened Wrappers

  /** A room or a user as listed by the server: an id and a name. */
  datatype Named = Named(id: int, nome: string)

  /** The table that `forEach` + `Map.set` builds: a later entry overwrites an earlier one. */
  function NameMap(entries: seq<Named>): map<int, string>
  {
    if entries == [] then map[]
    else
      var last := entries[|entries| - 1];
      NameMap(entries[..|entries| - 1])[last.id := last.nome]
  }

  /** Does any entry carry `id`? */
  predicate Listed(entries: seq<Named>, id: int)
  {
    exists i :: 0 <= i < |entries| && entries[i].id == id
  }

  /** Entry `i` is the last one carrying its id. */
  predicate LastWithItsId(entries: seq<Named>, i: int)
  {
    0 <= i < |entries| && forall j :: i < j < |entries| ==> entries[j].id != entries[i].id
  }

  /** The keys of the table are exactly the listed ids. */
  lemma {:induction false} NameMapKeys(entries: seq<Named>, id: int)
    ensures id in NameMap(entries) <==> Listed(entries, id)
  {
    if entries != [] {
      var n := |entries| - 1;
      var init := entries[..n];
      NameMapKeys(init, id);
      if Listed(entries, id) && entries[n].id != id {
        var i :| 0 <= i < |entries| && entries[i].id == id;
        assert init[i].id == id;
      }
      if Listed(init, id) {
        var i :| 0 <= i < |init| && init[i].id == id;
        assert entries[i].id == id;
      }
    }
  }

  /** Each id maps to the name of the last entry carrying it. */
  lemma {:induction false} NameMapLastWins(entries: seq<Named>, i: int)
    requires LastWithItsId(entries, i)
    ensures entries[i].id in NameMap(entries) && NameMap(entries)[entries[i].id] == entries[i].nome
  {
    var n := |entries| - 1;
    if i < n {
      var init := entries[..n];
      assert entries[n].id != entries[i].id;
      assert LastWithItsId(init, i) by {
        forall j | i < j < |init| ensures init[j].id != init[i].id {
          assert init[j] == entries[j] && init[i] == entries[i];
        }
      }
      NameMapLastWins(init, i);
    }
  }

  /** The `forEach` loop that fills the table. */
  method BuildNameMap(entries: seq<Named>) returns (m: map<int, string>)
    ensures m == NameMap(entries)
  {
    m := map[];
    var i := 0;
    while i < |entries|
      invariant 0 <= i <= |entries|
      invariant m == NameMap(entries[..i])
    {
      assert entries[..i + 1][..i] == entries[..i];
      m := m[entries[i].id := entries[i].nome];
      i := i + 1;
    }
    assert entries[..i] == entries;
  }

  /** A column's value getter: the mapped name, or "Desconhecido" when it is missing or empty. */
  function Lookup(m: map<int, string>, id: int): (name: string)
    ensures name != ""
    ensures id in m && m[id] != "" ==> name == m[id]
    ensures !(id in m && m[id] != "") ==> name == "Desconhecido"
  {
    if id in m && m[id] != "" then m[id] else "Desconhecido"
  }

  /** The name a row shows is the last listed entry's, or "Desconhecido" for an unlisted id. */
  lemma LookupAfterLoad(entries: seq<Named>, id: int)
    ensures !Listed(entries, id) ==> Lookup(NameMap(entries), id) == "Desconhecido"
    ensures forall i ::
      LastWithItsId(entries, i) && entries[i].id == id && entries[i].nome != "" ==>
        Lookup(NameMap(entries), id) == entries[i].nome
  {
    NameMapKeys(entries, id);
    forall i | LastWithItsId(entries, i) && entries[i].id == id && entries[i].nome != ""
      ensures Lookup(NameMap(entries), id) == entries[i].nome
    {
      NameMapLastWins(entries, i);
    }
  }

  /** The grid's columns, by field. */
  function Columns(isAdmin: bool): (cols: seq<string>)
    ensures |cols| == if isAdmin then 7 else 6
    ensures "id_usuario" in cols <==> isAdmin
    ensures cols[0] == "id"
    ensures cols[|cols| - 5..] == ["id_ambiente", "horario", "data", "status", "acoes"]
  {
    ["id"] + (if isAdmin then ["id_usuario"] else []) + ["id_ambiente", "horario", "data", "status", "acoes"]
  }

  datatype Action = Edit | Cancel | History

  /** The buttons of a row: only History unless the reservation is 'ativo'. */
  function Actions(status: string): (acts: seq<Action>)
    ensures History in acts
    ensures Cancel in acts <==> status == "ativo"
    ensures Edit in acts <==> status == "ativo"
    ensures acts[|acts| - 1] == History
  {
    if status != "ativo" then [History] else [Edit, Cancel, History]
  }

  /** The cancellation request `salvarCancelamento` posts. */
  datatype CancelRequest = CancelRequest(idReserva: int, idUsuario: int, mensagem: string)

  /** The cancellation modal's state. */
  class CancelModal {
    var modalAberto: bool
    var idReservaSelecionada: Option<int>

    constructor ()
      ensures !modalAberto && idReservaSelecionada == None
    {
      modalAberto := false;
      idReservaSelecionada := None;
    }

    /** "Cancelar" on a row. */
    method AbrirModal(id: int)
      modifies this
      ensures modalAberto && idReservaSelecionada == Some(id)
    {
      idReservaSelecionada := Some(id);
      modalAberto := true;
    }

    method FecharModal()
      modifies this
      ensures !modalAberto && idReservaSelecionada == None
    {
      modalAberto := false;
      idReservaSelecionada := None;
    }

    /**
     * Saving the cancellation: nothing happens without a truthy selected id;
     * otherwise the request is sent, the modal closes whether it succeeds or
     * not, and a snackbar reports the outcome.
     */
    method SalvarCancelamento(mensagem: string, idUsuario: int, succeeded: bool)
      returns (request: Option<CancelRequest>, notice: Option<string>)
      modifies this
      ensures !Truthy(old(idReservaSelecionada)) ==>
        request == None && notice == None
        && modalAberto == old(modalAberto) && idReservaSelecionada == old(idReservaSelecionada)
      ensures Truthy(old(idReservaSelecionada)) ==>
        request == Some(CancelRequest(old(idReservaSelecionada).value, idUsuario, mensagem))
        && notice == Some(if succeeded then "Reserva Cancelada realizado com sucesso!"
                          else "Ocorreu um erro ao cancelar a reserva")
        && !modalAberto && idReservaSelecionada == None
    {
      if !Truthy(idReservaSelecionada) {
        request, notice := None, None;
        return;
      }
      request := Some(CancelRequest(idReservaSelecionada.value, idUsuario, mensagem));
      FecharModal();
      if succeeded {
        notice := Some("Reserva Cancelada realizado com sucesso!");
      } else {
        notice := Some("Ocorreu um erro ao cancelar a reserva");
      }
    }
  }
}
