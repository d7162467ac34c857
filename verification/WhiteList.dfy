/**
 * The whitelist page: a table of re-opened calendar dates with a date field
 * that either adds a new row or, after "edit" was pressed on a row, rewrites
 * that row's date. Server answers are parameters of the operations.
 */
module WhiteList {
  import opened Wrappers
  import opened Lists

  /** A row of the table. */
  datatype Row = Row(id: int, data: string)

  /** A list item as received; a field that is missing or falsy is `None`. */
  datatype RawItem = RawItem(id: Option<int>, data: Option<string>)

  /** The `whiteList` member of the answer: an array of items, or anything else. */
  datatype Payload = NotAnArray | Items(items: seq<RawItem>)

  /** The answer to a create or update request. */
  datatype SaveResponse =
    | Saved(id: Option<int>, data: Option<string>)  // `res.data.id`, `res.data.whiteList.data`
    | SaveFailed(body: Option<string>)               // `err.response?.data`

  datatype Severity = Success | Error

  /** A snackbar message. */
  datatype Notice = Notice(severity: Severity, message: string)

  /** One item: a missing id becomes 0, a missing date becomes "". */
  function NormaliseItem(item: RawItem): (r: Row)
    ensures item.id.None? ==> r.id == 0
    ensures item.id.Some? ==> r.id == item.id.value
    ensures TruthyText(item.data) ==> r.data == item.data.value
    ensures !TruthyText(item.data) ==> r.data == ""
  {
    Row(item.id.GetOr(0), item.data.GetOr(""))
  }

  /** The table after loading: nothing unless the payload is an array, else one row per item in order. */
  function Normalise(p: Payload): (rows: seq<Row>)
    ensures p.NotAnArray? ==> rows == []
    ensures p.Items? ==> |rows| == |p.items|
    ensures p.Items? ==> forall i :: 0 <= i < |rows| ==> rows[i] == NormaliseItem(p.items[i])
  {
    match p
    case NotAnArray => []
    case Items(items) => seq(|items|, i requires 0 <= i < |items| => NormaliseItem(items[i]))
  }

  /** A row as the server would send it back. */
  function AsItem(row: Row): RawItem
  {
    RawItem(Some(row.id), Some(row.data))
  }

  /** Loading rows that the server returns complete gives back those very rows. */
  lemma NormaliseRoundTrip(rows: seq<Row>)
    ensures Normalise(Items(seq(|rows|, i requires 0 <= i < |rows| => AsItem(rows[i])))) == rows
  {
  }

  /** The largest id in the table (`Math.max(...ids)`). */
  function MaxId(rows: seq<Row>): (m: int)
    requires rows != []
    ensures forall row :: row in rows ==> row.id <= m
    ensures exists row :: row in rows && row.id == m
  {
    if |rows| == 1 then rows[0].id
    else
      var rest := MaxId(rows[1..]);
      assert forall row :: row in rows[1..] ==> row in rows;
      if rows[0].id >= rest then rows[0].id else rest
  }

  /** The id of a created row: the server's if truthy, else one past the largest, else 1. */
  function NewId(serverId: Option<int>, prev: seq<Row>): (id: int)
    ensures Truthy(serverId) ==> id == serverId.value
    ensures !Truthy(serverId) ==> forall row :: row in prev ==> row.id < id
    ensures !Truthy(serverId) && prev != [] ==> id == MaxId(prev) + 1
    ensures !Truthy(serverId) && prev == [] ==> id == 1
  {
    if Truthy(serverId) then serverId.value
    else if |prev| > 0 then MaxId(prev) + 1
    else 1
  }

  /** The create updater: one row at the end. */
  function Appended(prev: seq<Row>, selectedDate: string, serverId: Option<int>, serverData: Option<string>): (r: seq<Row>)
    ensures |r| == |prev| + 1 && r[..|prev|] == prev
    ensures r[|prev|].id == NewId(serverId, prev)
    ensures r[|prev|].data == if TruthyText(serverData) then serverData.value else selectedDate
  {
    prev + [Row(NewId(serverId, prev), if TruthyText(serverData) then serverData.value else selectedDate)]
  }

  /** The update updater: the date of every row with id `id` becomes `date`, nothing else changes. */
  function Updated(prev: seq<Row>, id: int, date: string): (r: seq<Row>)
    ensures |r| == |prev|
    ensures forall i :: 0 <= i < |prev| ==> r[i].id == prev[i].id
    ensures forall i :: 0 <= i < |prev| && prev[i].id != id ==> r[i] == prev[i]
    ensures forall i :: 0 <= i < |prev| && prev[i].id == id ==> r[i].data == date
  {
    seq(|prev|, i requires 0 <= i < |prev| => if prev[i].id == id then Row(prev[i].id, date) else prev[i])
  }

  /** The delete updater: every row with id `id` goes, the others keep their order. */
  function Deleted(prev: seq<Row>, id: int): (r: seq<Row>)
    ensures forall row :: row in r <==> row in prev && row.id != id
    ensures forall row: Row :: row.id != id ==> multiset(r)[row] == multiset(prev)[row]
  {
    FilterMembers(prev, (row: Row) => row.id != id);
    FilterCounts(prev, (row: Row) => row.id != id);
    Filter(prev, (row: Row) => row.id != id)
  }

  /** Deleting commutes with splitting the table, so the surviving rows keep their order. */
  lemma DeletedConcat(a: seq<Row>, b: seq<Row>, id: int)
    ensures Deleted(a + b, id) == Deleted(a, id) + Deleted(b, id)
  {
    FilterConcat(a, b, (row: Row) => row.id != id);
  }

  /** The table after a successful save: an update when the selected id is truthy, a create otherwise. */
  function SavedRows(prev: seq<Row>, selectedId: Option<int>, selectedDate: string,
                     serverId: Option<int>, serverData: Option<string>): seq<Row>
  {
    if Truthy(selectedId) then Updated(prev, selectedId.value, selectedDate)
    else Appended(prev, selectedDate, serverId, serverData)
  }

  /**
   * A created row whose id falls back to the computed one is fresh: no row
   * already in the table has it.
   */
  lemma CreatedIdFresh(prev: seq<Row>, selectedDate: string, serverData: Option<string>)
    ensures var r := SavedRows(prev, None, selectedDate, None, serverData);
      forall i :: 0 <= i < |prev| ==> r[i].id != r[|prev|].id
  {
  }

  /**
   * A row loaded without an id shows id 0; after "edit" on it the selected id
   * is 0, which is falsy, so saving appends a new row instead of rewriting it.
   */
  lemma EditOfZeroIdRowAppends(prev: seq<Row>, date: string, serverId: Option<int>, serverData: Option<string>)
    ensures |SavedRows(prev, Some(0), date, serverId, serverData)| == |prev| + 1
  {
  }

  /** The state of the whitelist page. */
  class WhiteListPage {
    var rows: seq<Row>
    var selectedId: Option<int>
    var selectedDate: string
    var loading: bool

    constructor ()
      ensures rows == [] && selectedId == None && selectedDate == "" && !loading
    {
      rows := [];
      selectedId := None;
      selectedDate := "";
      loading := false;
    }

    /** The list request was sent. */
    method BeginFetch()
      modifies this
      ensures loading
      ensures rows == old(rows) && selectedId == old(selectedId) && selectedDate == old(selectedDate)
    {
      loading := true;
    }

    /** The list arrived. */
    method FetchSucceeded(payload: Payload)
      modifies this
      ensures rows == Normalise(payload) && !loading
      ensures selectedId == old(selectedId) && selectedDate == old(selectedDate)
    {
      rows := Normalise(payload);
      loading := false;
    }

    /** The list request failed: the table keeps its rows. */
    method FetchFailed(body: Option<string>) returns (notice: Notice)
      modifies this
      ensures !loading
      ensures notice == Notice(Error, if TruthyText(body) then body.value else "Erro ao carregar dados")
      ensures rows == old(rows) && selectedId == old(selectedId) && selectedDate == old(selectedDate)
    {
      loading := false;
      notice := Notice(Error, if TruthyText(body) then body.value else "Erro ao carregar dados");
    }

    /** The date field was edited. */
    method SetDate(date: string)
      modifies this
      ensures selectedDate == date
      ensures rows == old(rows) && selectedId == old(selectedId) && loading == old(loading)
    {
      selectedDate := date;
    }

    /** "Edit" on a row: its id and date become the selection. */
    method EditDate(id: int, date: string)
      modifies this
      ensures selectedId == Some(id) && selectedDate == date
      ensures rows == old(rows) && loading == old(loading)
    {
      selectedId := Some(id);
      selectedDate := date;
    }

    /**
     * "Salvar": with no date, an error and no change at all; otherwise a
     * create or update request whose answer is `response`.
     */
    method SaveDate(response: SaveResponse) returns (notice: Notice)
      modifies this
      ensures old(selectedDate) == "" ==>
        && notice == Notice(Error, "Por favor, selecione uma data válida")
        && rows == old(rows) && selectedId == old(selectedId) && selectedDate == old(selectedDate)
        && loading == old(loading)
      ensures old(selectedDate) != "" ==> !loading
      ensures old(selectedDate) != "" && response.Saved? ==>
        && rows == SavedRows(old(rows), old(selectedId), old(selectedDate), response.id, response.data)
        && selectedId == None && selectedDate == ""
        && notice == Notice(Success, if Truthy(old(selectedId)) then "Data atualizada com sucesso!"
                                     else "Data cadastrada com sucesso!")
      ensures old(selectedDate) != "" && response.SaveFailed? ==>
        && rows == old(rows) && selectedId == old(selectedId) && selectedDate == old(selectedDate)
        && notice == Notice(Error, if TruthyText(response.body) then response.body.value
                                   else if Truthy(old(selectedId)) then "Erro ao atualizar a data"
                                   else "Erro ao cadastrar a data")
    {
      if selectedDate == "" {
        notice := Notice(Error, "Por favor, selecione uma data válida");
        return;
      }
      loading := true;
      match response {
      case Saved(id, data) =>
        rows := SavedRows(rows, selectedId, selectedDate, id, data);
        notice := Notice(Success, if Truthy(selectedId) then "Data atualizada com sucesso!"
                                  else "Data cadastrada com sucesso!");
        selectedId := None;
        selectedDate := "";
      case SaveFailed(body) =>
        var fallback := if Truthy(selectedId) then "Erro ao atualizar a data" else "Erro ao cadastrar a data";
        notice := Notice(Error, if TruthyText(body) then body.value else fallback);
      }
      loading := false;
    }

    /** Delete on a row: on success every row with that id goes. */
    method DeleteDate(id: int, ok: bool, body: Option<string>) returns (notice: Notice)
      modifies this
      ensures !loading
      ensures ok ==> rows == Deleted(old(rows), id) && notice == Notice(Success, "Data excluída com sucesso!")
      ensures !ok ==> (rows == old(rows)
        && notice == Notice(Error, if TruthyText(body) then body.value else "Erro ao excluir a data"))
      ensures selectedId == old(selectedId) && selectedDate == old(selectedDate)
    {
      loading := true;
      if ok {
        rows := Deleted(rows, id);
        notice := Notice(Success, "Data excluída com sucesso!");
      } else {
        notice := Notice(Error, if TruthyText(body) then body.value else "Erro ao excluir a data");
      }
      loading := false;
    }
  }
}
