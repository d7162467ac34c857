/**
 * The rooms page: each room card lists the room's operating-hour slots taken
 * from the global slot list and ordered by start time; deleting a room goes
 * through a confirmation dialog.
 */
module Ambientes {
  import opened Wrappers
  import opened Text
  import opened Lists

  /** An operating-hour entry of the global list. */
  datatype Slot = Slot(id: int, idAmbiente: int, horario: string)

  /** A room; only its id matters here. */
  datatype Room = Room(id: int, nome: string)

  /** The confirmation dialog: open or not, and the room id it was opened for. */
  datatype DialogState = DialogState(open: bool, id: Option<int>)

  /** The sort key: the text before the first '-' of the label, its start time. */
  function StartOf(s: Slot): string
  {
    BeforeFirst(s.horario, '-')
  }

  /** Ordered by start time, each entry no later than every entry after it. */
  ghost predicate SortedByStart(s: seq<Slot>)
  {
    forall i, j :: 0 <= i < j < |s| ==> LexLe(StartOf(s[i]), StartOf(s[j]))
  }

  /** An entry no later than the head of a sorted list can go in front of it. */
  lemma SortedCons(x: Slot, s: seq<Slot>)
    requires SortedByStart(s) && s != [] && LexLe(StartOf(x), StartOf(s[0]))
    ensures SortedByStart([x] + s)
  {
    forall j | 0 <= j < |s| ensures LexLe(StartOf(x), StartOf(s[j])) {
      if j > 0 { LexLeTransitive(StartOf(x), StartOf(s[0]), StartOf(s[j])); }
    }
    assert forall j :: 1 <= j <= |s| ==> ([x] + s)[j] == s[j - 1];
  }

  /** The head of a sorted list stays in front when a later entry was inserted into its tail. */
  lemma SortedConsTail(x: Slot, s: seq<Slot>, rest: seq<Slot>)
    requires SortedByStart(s) && s != [] && LexLe(StartOf(s[0]), StartOf(x))
    requires SortedByStart(rest) && multiset(rest) == multiset(s[1..]) + multiset{x}
    ensures SortedByStart([s[0]] + rest)
  {
    forall j | 0 <= j < |rest| ensures LexLe(StartOf(s[0]), StartOf(rest[j])) {
      assert rest[j] in multiset(rest);
      if rest[j] != x {
        assert rest[j] in multiset(s[1..]);
        var k :| 0 <= k < |s[1..]| && s[1..][k] == rest[j];
        assert s[k + 1] == rest[j];
      }
    }
    assert forall j :: 1 <= j <= |rest| ==> ([s[0]] + rest)[j] == rest[j - 1];
  }

  /** Places `x` before the first entry that does not start earlier than it. */
  function Insert(x: Slot, s: seq<Slot>): (r: seq<Slot>)
    requires SortedByStart(s)
    ensures SortedByStart(r)
    ensures multiset(r) == multiset(s) + multiset{x}
  {
    if s == [] then [x]
    else if LexLe(StartOf(x), StartOf(s[0])) then
      SortedCons(x, s);
      [x] + s
    else
      LexLeTotal(StartOf(x), StartOf(s[0]));
      var rest := Insert(x, s[1..]);
      SortedConsTail(x, s, rest);
      assert s == [s[0]] + s[1..];
      [s[0]] + rest
  }

  /** `sort` with `localeCompare` on the start times. */
  function SortByStart(s: seq<Slot>): (r: seq<Slot>)
    ensures SortedByStart(r)
    ensures multiset(r) == multiset(s)
  {
    if s == [] then []
    else
      assert s == [s[0]] + s[1..];
      Insert(s[0], SortByStart(s[1..]))
  }

  /** The entries whose start time is `k`, in their order. */
  function WithStart(s: seq<Slot>, k: string): seq<Slot>
  {
    Filter(s, (y: Slot) => StartOf(y) == k)
  }

  /** Insertion puts `x` in front of every entry with its start time, and keeps their order. */
  lemma {:induction false} InsertStable(x: Slot, s: seq<Slot>, k: string)
    requires SortedByStart(s)
    ensures WithStart(Insert(x, s), k) == (if StartOf(x) == k then [x] else []) + WithStart(s, k)
  {
    if s == [] {
    } else if LexLe(StartOf(x), StartOf(s[0])) {
      assert ([x] + s)[0] == x && ([x] + s)[1..] == s;
    } else {
      var rest := Insert(x, s[1..]);
      InsertStable(x, s[1..], k);
      LexLeReflexive(StartOf(x));
      assert StartOf(x) == k ==> StartOf(s[0]) != k;
      assert ([s[0]] + rest)[0] == s[0] && ([s[0]] + rest)[1..] == rest;
    }
  }

  /** The sort is stable: the entries of one start time keep their input order. */
  lemma {:induction false} SortStable(s: seq<Slot>, k: string)
    ensures WithStart(SortByStart(s), k) == WithStart(s, k)
  {
    if s != [] {
      SortStable(s[1..], k);
      InsertStable(s[0], SortByStart(s[1..]), k);
    }
  }

  /** The slots shown on a room's card. */
  function RoomSlots(all: seq<Slot>, roomId: int): (r: seq<Slot>)
    ensures SortedByStart(r)
    ensures forall s :: s in r <==> s in all && s.idAmbiente == roomId
    ensures forall s: Slot :: s.idAmbiente == roomId ==> multiset(r)[s] == multiset(all)[s]
    ensures all == [] ==> r == []
  {
    if |all| > 0 then
      var mine := Filter(all, (s: Slot) => s.idAmbiente == roomId);
      FilterMembers(all, (s: Slot) => s.idAmbiente == roomId);
      FilterCounts(all, (s: Slot) => s.idAmbiente == roomId);
      var r := SortByStart(mine);
      assert forall s :: s in r <==> s in mine by {
        forall s ensures s in r <==> s in mine {
          assert s in r <==> s in multiset(r);
        }
      }
      r
    else []
  }

  /** The room list after a confirmed delete: the rows with the dialog's id go, the rest keep their order. */
  function AfterConfirmedDelete(rooms: seq<Room>, dialog: DialogState): (r: seq<Room>)
    ensures dialog.id.Some? ==> forall x :: x in r <==> x in rooms && x.id != dialog.id.value
    ensures dialog.id.Some? ==> forall x: Room :: x.id != dialog.id.value ==> multiset(r)[x] == multiset(rooms)[x]
    ensures dialog.id.None? ==> r == rooms
  {
    match dialog.id
    case Some(id) =>
      FilterMembers(rooms, (x: Room) => x.id != id);
      FilterCounts(rooms, (x: Room) => x.id != id);
      Filter(rooms, (x: Room) => x.id != id)
    case None => rooms  // `row.id !== null` holds of every row
  }

  /** The surviving rooms keep their order: the delete commutes with concatenation. */
  lemma AfterConfirmedDeleteConcat(a: seq<Room>, b: seq<Room>, dialog: DialogState)
    ensures AfterConfirmedDelete(a + b, dialog) == AfterConfirmedDelete(a, dialog) + AfterConfirmedDelete(b, dialog)
  {
    match dialog.id
    case Some(id) => FilterConcat(a, b, (x: Room) => x.id != id);
    case None =>
  }

  /** "Excluir" on a room card. */
  function RemoveAmbiente(id: int): (d: DialogState)
    ensures d.open && d.id == Some(id)
  {
    DialogState(true, Some(id))
  }

  /** The dialog's close handler. */
  function CloseDialog(): (d: DialogState)
    ensures !d.open && d.id == None
  {
    DialogState(false, None)
  }

  /** Opening the dialog on a room and confirming removes exactly that room's rows. */
  lemma OpenThenConfirmRemovesRoom(rooms: seq<Room>, id: int)
    ensures forall x :: x in AfterConfirmedDelete(rooms, RemoveAmbiente(id)) <==> x in rooms && x.id != id
  {
  }

  /** Confirming after the dialog was closed removes nothing: no row has the id `null`. */
  lemma ConfirmAfterCloseRemovesNothing(rooms: seq<Room>)
    ensures AfterConfirmedDelete(rooms, CloseDialog()) == rooms
  {
  }
}
