/**
 * Operating hours of one room: the 24 hourly slot labels, the selection the
 * user edits with per-slot check boxes and a "select all" box, the loading of
 * the slots already stored for the room, and the plan of create and delete
 * requests that saving the form sends.
 */
module HorarioFuncionamento {
  import opened Text
  import opened Lists

  /** A stored operating-hour record, as the server returns it. */
  datatype HorarioRecord = HorarioRecord(id: int, ambienteId: int, horario: string)

  /** The requests a save sends: one create per label, one delete per record (by its id). */
  datatype Plan = Plan(creates: seq<string>, removes: seq<HorarioRecord>)

  /** `padStart`ed two-digit hour. */
  function Hour2(h: nat): string
  {
    PadStart(Decimal(h), 2, '0')
  }

  /** Label of slot `i`: its start hour, ":00-", the hour after it (23 wraps to 00), ":00". */
  function SlotLabel(i: nat): string
    requires i < 24
  {
    Hour2(i) + ":00-" + Hour2((i + 1) % 24) + ":00"
  }

  /** The slot labels the page offers, in order of start hour. */
  function TimeSlots(): seq<string>
  {
    seq(24, i requires 0 <= i < 24 => SlotLabel(i))
  }

  /** The loop that builds the 24 labels. */
  method GenerateTimeSlots() returns (slots: seq<string>)
    ensures |slots| == 24
    ensures forall i :: 0 <= i < 24 ==> slots[i] == SlotLabel(i)
  {
    slots := [];
    for i := 0 to 24
      invariant |slots| == i
      invariant forall k :: 0 <= k < i ==> slots[k] == SlotLabel(k)
    {
      var startHour := Hour2(i);
      var endHour := Hour2((i + 1) % 24);
      slots := slots + [startHour + ":00-" + endHour + ":00"];
    }
  }

  /** Character by character, slot `i` reads "HH:00-EE:00" with EE = (HH + 1) mod 24. */
  lemma SlotLabelChars(i: nat)
    requires i < 24
    ensures var e := (i + 1) % 24;
      SlotLabel(i) == [DigitChar(i / 10), DigitChar(i % 10), ':', '0', '0', '-',
                       DigitChar(e / 10), DigitChar(e % 10), ':', '0', '0']
  {
    PadTwoDigits(i);
    PadTwoDigits((i + 1) % 24);
  }

  /** The first and the last slot; the last one wraps around midnight. */
  lemma FirstAndLastSlot()
    ensures SlotLabel(0) == "00:00-01:00"
    ensures SlotLabel(23) == "23:00-00:00"
  {
    SlotLabelChars(0);
    SlotLabelChars(23);
  }

  /** No two slots share a label. */
  lemma SlotsDistinct(i: nat, j: nat)
    requires i < 24 && j < 24 && i != j
    ensures SlotLabel(i) != SlotLabel(j)
  {
    SlotLabelChars(i);
    SlotLabelChars(j);
    assert i == 10 * (i / 10) + i % 10 && j == 10 * (j / 10) + j % 10;
    assert SlotLabel(i)[0] != SlotLabel(j)[0] || SlotLabel(i)[1] != SlotLabel(j)[1];
  }

  /** The start time of slot `i` (the text before its '-') is "HH:00". */
  lemma SlotStart(i: nat)
    requires i < 24
    ensures BeforeFirst(SlotLabel(i), '-') == [DigitChar(i / 10), DigitChar(i % 10), ':', '0', '0']
  {
    SlotLabelChars(i);
    var s := SlotLabel(i);
    assert '-' !in s[..5];
    BeforeFirstAt(s, '-', 5);
  }

  /** The labels come in strictly increasing order of start time. */
  lemma TimeSlotsAscending(i: nat, j: nat)
    requires i < j < 24
    ensures LexLt(BeforeFirst(SlotLabel(i), '-'), BeforeFirst(SlotLabel(j), '-'))
  {
    SlotStart(i);
    SlotStart(j);
    var a, b := BeforeFirst(SlotLabel(i), '-'), BeforeFirst(SlotLabel(j), '-');
    if i / 10 < j / 10 {
      assert a[0] < b[0];
    } else {
      assert a[0] == b[0] && a[1] < b[1];
      assert LexLe(a[1..], b[1..]);
    }
    assert a[1] != b[1] || a[0] != b[0];
  }

  // ----- the selection -----

  /** Unchecking: every copy of `h` goes, the other entries stay in order. */
  function Without(sel: seq<string>, h: string): (r: seq<string>)
    ensures h !in r
    ensures forall x :: x != h ==> multiset(r)[x] == multiset(sel)[x]
  {
    FilterMembers(sel, x => x != h);
    FilterCounts(sel, x => x != h);
    Filter(sel, x => x != h)
  }

  /** Removing a label distributes over a split of the selection, so order is kept. */
  lemma WithoutConcat(a: seq<string>, b: seq<string>, h: string)
    ensures Without(a + b, h) == Without(a, h) + Without(b, h)
  {
    FilterConcat(a, b, x => x != h);
  }

  /** Removing a label that is not selected changes nothing. */
  lemma WithoutAbsent(sel: seq<string>, h: string)
    requires h !in sel
    ensures Without(sel, h) == sel
  {
    FilterKeepsAll(sel, x => x != h);
  }

  /** A check-box change: checking appends at the end, unchecking removes every copy. */
  function Toggle(sel: seq<string>, h: string, checked: bool): (r: seq<string>)
    ensures checked ==> r == sel + [h]
    ensures !checked ==> h !in r && forall x :: x != h ==> multiset(r)[x] == multiset(sel)[x]
  {
    if checked then sel + [h] else Without(sel, h)
  }

  /**
   * The "select all" flag compares lengths only: checking a label onto 23
   * copies of it gives a selection of 24 entries, which sets the flag, yet
   * it misses every other slot.
   */
  lemma SelectAllFlagIsLengthBased()
    ensures var sel := Toggle(seq(23, _ => SlotLabel(0)), SlotLabel(0), true);
            |sel| == |TimeSlots()| && SlotLabel(1) !in sel
  {
    var sel := Toggle(seq(23, _ => SlotLabel(0)), SlotLabel(0), true);
    SlotsDistinct(0, 1);
    assert forall i :: 0 <= i < |sel| ==> sel[i] == SlotLabel(0);
  }

  // ----- saving -----

  /** The `horario` field of each record, in response order. */
  function Horarios(records: seq<HorarioRecord>): (r: seq<string>)
    ensures |r| == |records|
    ensures forall i :: 0 <= i < |records| ==> r[i] == records[i].horario
    ensures forall h :: h in r <==> exists e :: e in records && e.horario == h
  {
    var r := seq(|records|, i requires 0 <= i < |records| => records[i].horario);
    assert forall e :: e in records ==> e.horario in r by {
      forall e | e in records ensures e.horario in r {
        var i :| 0 <= i < |records| && records[i] == e;
        assert r[i] == e.horario;
      }
    }
    r
  }

  /** Selected labels no stored record has, in selection order (copies kept). */
  function ToAdd(selected: seq<string>, existing: seq<HorarioRecord>): (r: seq<string>)
    ensures forall h :: h in r <==> h in selected && forall e :: e in existing ==> e.horario != h
    ensures forall h :: h in r ==> multiset(r)[h] == multiset(selected)[h]
  {
    var stored := Horarios(existing);
    assert forall e :: e in existing ==> e.horario in stored;
    FilterMembers(selected, h => h !in stored);
    FilterCounts(selected, h => h !in stored);
    Filter(selected, h => h !in stored)
  }

  /** The creates follow the selection: adding commutes with concatenation. */
  lemma ToAddConcat(a: seq<string>, b: seq<string>, existing: seq<HorarioRecord>)
    ensures ToAdd(a + b, existing) == ToAdd(a, existing) + ToAdd(b, existing)
  {
    var stored := Horarios(existing);
    FilterConcat(a, b, h => h !in stored);
  }

  /** Stored records whose label is no longer selected, in response order. */
  function ToRemove(existing: seq<HorarioRecord>, selected: seq<string>): (r: seq<HorarioRecord>)
    ensures forall e :: e in r <==> e in existing && e.horario !in selected
  {
    FilterMembers(existing, (e: HorarioRecord) => e.horario !in selected);
    Filter(existing, (e: HorarioRecord) => e.horario !in selected)
  }

  /** The requests of a save: the difference when editing, one create per entry otherwise. */
  function SubmitPlan(isEdit: bool, selected: seq<string>, existing: seq<HorarioRecord>): (p: Plan)
    ensures !isEdit ==> p.creates == selected && p.removes == []
    ensures isEdit ==> p.creates == ToAdd(selected, existing) && p.removes == ToRemove(existing, selected)
  {
    if isEdit then Plan(ToAdd(selected, existing), ToRemove(existing, selected))
    else Plan(selected, [])
  }

  /** The labels stored once a plan has been carried out: kept records, then the creates. */
  function Applied(existing: seq<HorarioRecord>, p: Plan): seq<string>
  {
    Horarios(Filter(existing, (e: HorarioRecord) => e !in p.removes)) + p.creates
  }

  /**
   * Carrying out the edit plan leaves exactly the selected labels stored, and
   * no created label duplicates a record that is kept.
   */
  lemma EditPlanReachesSelection(selected: seq<string>, existing: seq<HorarioRecord>)
    ensures var p := SubmitPlan(true, selected, existing);
      forall h :: h in Applied(existing, p) <==> h in selected
    ensures var p := SubmitPlan(true, selected, existing);
      forall h, e :: h in p.creates && e in existing && e !in p.removes ==> e.horario != h
  {
    var p := SubmitPlan(true, selected, existing);
    var kept := Filter(existing, (e: HorarioRecord) => e !in p.removes);
    FilterMembers(existing, (e: HorarioRecord) => e !in p.removes);
    assert forall e :: e in kept <==> e in existing && e.horario in selected;
    assert Applied(existing, p) == Horarios(kept) + p.creates;
  }

  /** A room with no stored records gets exactly the selection, in order, on either path. */
  lemma FreshRoomGetsSelection(isEdit: bool, selected: seq<string>)
    ensures Applied([], SubmitPlan(isEdit, selected, [])) == selected
  {
    var p := SubmitPlan(isEdit, selected, []);
    assert Filter([], (e: HorarioRecord) => e !in p.removes) == [];
    assert Horarios([]) == [];
    if isEdit {
      FilterKeepsAll(selected, h => h !in Horarios([]));
    }
    assert p.creates == selected;
  }

  // ----- the page -----

  /** The messages of the two `required` rules that fail. */
  function FormErrors(ambienteId: string, horarios: seq<string>): (errs: seq<string>)
    ensures errs == [] <==> ambienteId != "" && horarios != []
    ensures ambienteId == "" <==> "Selecione um ambiente" in errs
    ensures horarios == [] <==> "Selecione pelo menos um horário" in errs
  {
    (if ambienteId == "" then ["Selecione um ambiente"] else [])
    + (if horarios == [] then ["Selecione pelo menos um horário"] else [])
  }

  /** The outcome of pressing "Salvar". */
  datatype Submission = Rejected(errors: seq<string>) | Sent(plan: Plan)

  /** The state of the operating-hours page. */
  class HorarioForm {
    const timeSlots: seq<string>
    var selected: seq<string>
    var selectAll: bool
    var formHorarios: seq<string>
    var formAmbienteId: string
    var isEdit: bool
    var loading: bool

    /** The form field mirrors the selection, and the box is ticked exactly when 24 entries are selected. */
    ghost predicate Valid()
      reads this
    {
      && timeSlots == TimeSlots()
      && formHorarios == selected
      && (selectAll <==> |selected| == |timeSlots|)
    }

    constructor ()
      ensures Valid()
      ensures selected == [] && !selectAll && formAmbienteId == "" && !isEdit && !loading
    {
      var slots := GenerateTimeSlots();
      timeSlots := slots;
      selected := [];
      selectAll := false;
      formHorarios := [];
      formAmbienteId := "";
      isEdit := false;
      loading := false;
    }

    /** The "select all" box: all 24 labels in order, or none. */
    method HandleSelectAll(checked: bool)
      requires Valid()
      modifies this
      ensures Valid()
      ensures selectAll == checked
      ensures selected == if checked then TimeSlots() else []
      ensures formAmbienteId == old(formAmbienteId) && isEdit == old(isEdit) && loading == old(loading)
    {
      selectAll := checked;
      var newHorarios := if checked then timeSlots else [];
      selected := newHorarios;
      formHorarios := newHorarios;
    }

    /** One slot's check box. */
    method HandleHorarioChange(horario: string, checked: bool)
      requires Valid()
      modifies this
      ensures Valid()
      ensures selected == Toggle(old(selected), horario, checked)
      ensures selectAll == (|selected| == 24)
      ensures formAmbienteId == old(formAmbienteId) && isEdit == old(isEdit) && loading == old(loading)
    {
      var newSelected := Toggle(selected, horario, checked);
      selected := newSelected;
      formHorarios := newSelected;
      selectAll := |newSelected| == |timeSlots|;
    }

    /** The effect starts both requests only when the route id is a number. */
    method BeginLoad(idIsNumber: bool) returns (requested: bool)
      requires Valid()
      modifies this
      ensures Valid()
      ensures requested == idIsNumber
      ensures loading == (idIsNumber || old(loading))
      ensures selected == old(selected) && selectAll == old(selectAll) && isEdit == old(isEdit)
      ensures formAmbienteId == old(formAmbienteId)
    {
      requested := idIsNumber;
      if idIsNumber {
        loading := true;
      }
    }

    /** The room arrived: its id, as text, fills the form's room field. */
    method AmbienteLoaded(ambienteId: nat)
      requires Valid()
      modifies this
      ensures Valid()
      ensures formAmbienteId == Decimal(ambienteId)
      ensures selected == old(selected) && selectAll == old(selectAll)
      ensures isEdit == old(isEdit) && loading == old(loading)
    {
      formAmbienteId := Decimal(ambienteId);
    }

    /** The stored records arrived: a non-empty answer replaces the selection, an empty one keeps it. */
    method HorariosLoaded(response: seq<HorarioRecord>)
      requires Valid()
      modifies this
      ensures Valid()
      ensures isEdit && !loading
      ensures |response| > 0 ==> selected == Horarios(response) && selectAll == (|response| == 24)
      ensures |response| == 0 ==> selected == old(selected) && selectAll == old(selectAll)
      ensures formAmbienteId == old(formAmbienteId)
    {
      isEdit := true;
      if |response| > 0 {
        var horarios := Horarios(response);
        selected := horarios;
        formHorarios := horarios;
        selectAll := |horarios| == |timeSlots|;
      }
      loading := false;
    }

    /**
     * The request for the stored records failed. The handler reads the
     * message from the error's response before it clears loading; a
     * rejection without a response (network error, timeout) makes that
     * read throw, and loading stays on.
     */
    method HorariosLoadFailed(hasResponse: bool)
      requires Valid()
      modifies this
      ensures Valid()
      ensures hasResponse ==> !loading
      ensures !hasResponse ==> loading == old(loading)
      ensures selected == old(selected) && selectAll == old(selectAll) && isEdit == old(isEdit)
      ensures formAmbienteId == old(formAmbienteId)
    {
      if hasResponse {
        loading := false;
      }
    }

    /**
     * "Salvar": the required rules first; then, with `existing` the records
     * fetched again for the edit path, the requests to send. The handler
     * raises loading, and both its success and its failure path clear it
     * again, so a sent save ends with loading off; a rejected one never
     * reaches the handler.
     */
    method Submit(existing: seq<HorarioRecord>) returns (s: Submission)
      requires Valid()
      modifies this
      ensures Valid()
      ensures s.Rejected? <==> FormErrors(old(formAmbienteId), old(formHorarios)) != []
      ensures s.Rejected? ==> s.errors == FormErrors(old(formAmbienteId), old(formHorarios)) && loading == old(loading)
      ensures s.Sent? ==> s.plan == SubmitPlan(old(isEdit), old(selected), existing) && !loading
      ensures selected == old(selected) && selectAll == old(selectAll) && isEdit == old(isEdit)
      ensures formAmbienteId == old(formAmbienteId)
    {
      var errs := FormErrors(formAmbienteId, formHorarios);
      if errs != [] {
        s := Rejected(errs);
      } else {
        loading := true;
        s := Sent(SubmitPlan(isEdit, selected, existing));
        loading := false;
      }
    }
  }
}
