/**
 * The history modal: the reservation's history entries are sorted in place,
 * newest first, and shown one table row per entry.
 */
module ModalHist {

  /** A history entry; `createdAt` is the parsed `created_at` timestamp. */
  datatype Entry = Entry(idReserva: int, nomeAlteracao: string, ambiente: string, horario: string,
                         data: string, status: string, createdAt: int)

  /** One table row: the six cells in column order. */
  datatype TableRow = TableRow(ambiente: string, horario: string, data: string, status: string,
                               alteradoPor: string, alteradoEm: int)

  /** Newest first: no entry is older than one after it. */
  ghost predicate NewestFirst(s: seq<Entry>)
  {
    forall k, l :: 0 <= k < l < |s| ==> s[k].createdAt >= s[l].createdAt
  }

  /** The first `n` cells of the array are newest first. */
  ghost predicate PrefixNewestFirst(a: array<Entry>, n: int)
    reads a
  {
    forall k, l :: 0 <= k < l < n && l < a.Length ==> a[k].createdAt >= a[l].createdAt
  }

  /** Exchanges cells `j - 1` and `j`. */
  method SwapDown(a: array<Entry>, j: int)
    requires 0 < j < a.Length
    modifies a
    ensures a[j - 1] == old(a[j]) && a[j] == old(a[j - 1])
    ensures forall k :: 0 <= k < a.Length && k != j - 1 && k != j ==> a[k] == old(a[k])
    ensures multiset(a[..]) == old(multiset(a[..]))
  {
    a[j - 1], a[j] := a[j], a[j - 1];
  }

  /** Moves cell `i` left past every older entry, so the first `i + 1` cells become newest first. */
  method Sink(a: array<Entry>, i: int)
    requires 0 <= i < a.Length && PrefixNewestFirst(a, i)
    modifies a
    ensures PrefixNewestFirst(a, i + 1)
    ensures multiset(a[..]) == old(multiset(a[..]))
  {
    var j := i;
    while j > 0 && a[j - 1].createdAt < a[j].createdAt
      invariant 0 <= j <= i
      invariant forall k, l :: 0 <= k < l <= i && k != j && l != j ==> a[k].createdAt >= a[l].createdAt
      invariant forall l :: j < l <= i ==> a[j].createdAt > a[l].createdAt
      invariant multiset(a[..]) == old(multiset(a[..]))
    {
      SwapDown(a, j);
      j := j - 1;
    }
    forall k, l | 0 <= k < l <= i ensures a[k].createdAt >= a[l].createdAt {
      if l == j && k < j - 1 {
        assert a[k].createdAt >= a[j - 1].createdAt;
      }
    }
  }

  /** `historico.sort((a, b) => time(b) - time(a))`: reorders the given array and returns it. */
  method OrdenarPorData(historico: array<Entry>) returns (sorted: array<Entry>)
    modifies historico
    ensures sorted == historico
    ensures NewestFirst(historico[..])
    ensures multiset(historico[..]) == old(multiset(historico[..]))
  {
    var i := 0;
    while i < historico.Length
      invariant 0 <= i <= historico.Length
      invariant PrefixNewestFirst(historico, i)
      invariant multiset(historico[..]) == old(multiset(historico[..]))
    {
      Sink(historico, i);
      i := i + 1;
    }
    sorted := historico;
  }

  function Render(e: Entry): TableRow
  {
    TableRow(e.ambiente, e.horario, e.data, e.status, e.nomeAlteracao, e.createdAt)
  }

  /** The table body: sort, then one row per entry in the sorted order. */
  method TableBody(historico: array<Entry>) returns (rows: seq<TableRow>)
    modifies historico
    ensures |rows| == historico.Length
    ensures forall k :: 0 <= k < |rows| ==> rows[k] == Render(historico[k])
    ensures forall k, l :: 0 <= k < l < |rows| ==> rows[k].alteradoEm >= rows[l].alteradoEm
    ensures multiset(historico[..]) == old(multiset(historico[..]))
  {
    var sorted := OrdenarPorData(historico);
    rows := seq(sorted.Length, k reads sorted requires 0 <= k < sorted.Length => Render(sorted[k]));
  }
}
