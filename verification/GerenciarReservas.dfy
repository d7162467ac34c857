/**
 * The reservation form: a room select, a calendar whose chosen date triggers
 * a (simulated) fetch of the day's free times, and a time picker. Submitting
 * is not implemented: the handler always throws.
 */
module GerenciarReservas {
  import opened Wrappers
  import opened Text

  /** A calendar date. */
  datatype Date = Date(year: nat, month: nat, day: nat)

  predicate ValidDate(d: Date)
  {
    d.year <= 9999 && 1 <= d.month <= 12 && 1 <= d.day <= 31
  }

  /** Two decimal digits of `n`, tens first. */
  function Digits2(n: nat): string
    requires n < 100
  {
    [DigitChar(n / 10), DigitChar(n % 10)]
  }

  /** `format('YYYY-MM-DD')`: four-digit year, two-digit month and day. */
  function Format(d: Date): (s: string)
    requires ValidDate(d)
    ensures |s| == 10 && s[4] == '-' && s[7] == '-'
  {
    Digits2(d.year / 100) + Digits2(d.year % 100) + "-" + Digits2(d.month) + "-" + Digits2(d.day)
  }

  /** The calendar's `shouldDisableDate`: two fixed days. */
  predicate ShouldDisableDate(d: Date)
    requires ValidDate(d)
  {
    Format(d) in ["2024-12-25", "2024-12-29"]
  }

  lemma Digits2Injective(a: nat, b: nat)
    requires a < 100 && b < 100 && Digits2(a) == Digits2(b)
    ensures a == b
  {
    assert DigitChar(a / 10) == Digits2(a)[0] == Digits2(b)[0] == DigitChar(b / 10);
    assert DigitChar(a % 10) == Digits2(a)[1] == Digits2(b)[1] == DigitChar(b % 10);
  }

  /** Different valid dates never print alike. */
  lemma FormatInjective(d: Date, e: Date)
    requires ValidDate(d) && ValidDate(e) && Format(d) == Format(e)
    ensures d == e
  {
    var s, t := Format(d), Format(e);
    assert s[0..2] == Digits2(d.year / 100) && t[0..2] == Digits2(e.year / 100);
    assert s[2..4] == Digits2(d.year % 100) && t[2..4] == Digits2(e.year % 100);
    assert s[5..7] == Digits2(d.month) && t[5..7] == Digits2(e.month);
    assert s[8..10] == Digits2(d.day) && t[8..10] == Digits2(e.day);
    Digits2Injective(d.year / 100, e.year / 100);
    Digits2Injective(d.year % 100, e.year % 100);
    Digits2Injective(d.month, e.month);
    Digits2Injective(d.day, e.day);
  }

  /** The calendar disables exactly 25 and 29 December 2024. */
  lemma DisabledExactly(d: Date)
    requires ValidDate(d)
    ensures ShouldDisableDate(d) <==> d == Date(2024, 12, 25) || d == Date(2024, 12, 29)
  {
    assert Format(Date(2024, 12, 25)) == "2024-12-25";
    assert Format(Date(2024, 12, 29)) == "2024-12-29";
    if Format(d) == "2024-12-25" {
      FormatInjective(d, Date(2024, 12, 25));
    }
    if Format(d) == "2024-12-29" {
      FormatInjective(d, Date(2024, 12, 29));
    }
  }

  /** The six times the simulated fetch answers with, whatever the date. */
  function MockTimes(): seq<string>
  {
    ["09:00-09:59", "10:00-10:59", "11:00-11:59", "14:00-14:59", "15:00-15:59", "16:00-16:59"]
  }

  /** The messages of the `required` rules on the room and the time that fail. */
  function RequiredErrors(ambienteId: string, horario: string): (errs: seq<string>)
    ensures errs == [] <==> ambienteId != "" && horario != ""
    ensures ambienteId == "" <==> "Ambiente é obrigatório!" in errs
    ensures horario == "" <==> "Selecionar uma data e um horário é obrigatório!" in errs
  {
    (if ambienteId == "" then ["Ambiente é obrigatório!"] else [])
    + (if horario == "" then ["Selecionar uma data e um horário é obrigatório!"] else [])
  }

  /** What pressing "Salvar" leads to: a failed rule, or the handler's exception. */
  datatype Submission = Rejected(errors: seq<string>) | Thrown(message: string)

  /** The state of the reservation form. */
  class ReservaForm {
    var formAmbienteId: string
    var formData: Option<Date>
    var formHorario: string
    var selectedDate: Option<Date>
    var selectedTime: Option<string>
    var availableTimes: seq<string>
    var loading: bool
    var error: Option<string>

    /**
     * No handler ever sets `selectedTime`, only the simulated answer fills the
     * times, and the form's time is empty or one of the offered buttons.
     */
    ghost predicate Valid()
      reads this
    {
      && selectedTime == None
      && (availableTimes == [] || availableTimes == MockTimes())
      && (formHorario == "" || formHorario in MockTimes())
    }

    constructor ()
      ensures Valid()
      ensures formAmbienteId == "" && formData == None && formHorario == ""
      ensures selectedDate == None && availableTimes == [] && !loading && error == None
    {
      formAmbienteId := "";
      formData := None;
      formHorario := "";
      selectedDate := None;
      selectedTime := None;
      availableTimes := [];
      loading := false;
      error := None;
    }

    /** The room select. */
    method SelectAmbiente(id: string)
      requires Valid()
      modifies this
      ensures Valid()
      ensures formAmbienteId == id
      ensures formData == old(formData) && formHorario == old(formHorario) && selectedDate == old(selectedDate)
      ensures availableTimes == old(availableTimes) && loading == old(loading) && error == old(error)
    {
      formAmbienteId := id;
    }

    /**
     * The calendar's `onChange`: the form field and the selected date take the
     * new value, the selected time is cleared, and a fetch starts only for a
     * non-null date. The form's chosen time is left as it was.
     */
    method PickDate(newDate: Option<Date>) returns (fetchStarted: bool)
      requires Valid()
      modifies this
      ensures Valid()
      ensures formData == newDate && selectedDate == newDate && selectedTime == None
      ensures fetchStarted == newDate.Some?
      ensures fetchStarted ==> loading && error == None
      ensures !fetchStarted ==> loading == old(loading) && error == old(error)
      ensures formHorario == old(formHorario) && formAmbienteId == old(formAmbienteId)
      ensures availableTimes == old(availableTimes)
    {
      formData := newDate;
      selectedDate := newDate;
      selectedTime := None;
      fetchStarted := newDate.Some?;
      if fetchStarted {
        loading := true;
        error := None;
      }
    }

    /** The simulated fetch resolved: the six fixed times, and loading ends. */
    method FetchResolved()
      requires Valid()
      modifies this
      ensures Valid()
      ensures availableTimes == MockTimes() && !loading
      ensures formData == old(formData) && formHorario == old(formHorario) && selectedDate == old(selectedDate)
      ensures formAmbienteId == old(formAmbienteId) && error == old(error)
    {
      availableTimes := MockTimes();
      loading := false;
    }

    /** The `catch` path (the simulated wait never rejects): only loading ends. */
    method FetchRejected()
      requires Valid()
      modifies this
      ensures Valid()
      ensures !loading
      ensures availableTimes == old(availableTimes)
      ensures formData == old(formData) && formHorario == old(formHorario) && selectedDate == old(selectedDate)
      ensures formAmbienteId == old(formAmbienteId) && error == old(error)
    {
      loading := false;
    }

    /** A time button (one is shown per available time): it writes the form's `horario` field. */
    method ChooseTime(time: string)
      requires Valid()
      requires time in availableTimes
      modifies this
      ensures Valid()
      ensures formHorario == time
      ensures formData == old(formData) && selectedDate == old(selectedDate) && formAmbienteId == old(formAmbienteId)
      ensures availableTimes == old(availableTimes) && loading == old(loading) && error == old(error)
    {
      formHorario := time;
    }

    /** "Salvar": the rules block an incomplete form, and a complete one reaches a handler that throws. */
    method Submit() returns (s: Submission)
      requires Valid()
      ensures s.Rejected? <==> RequiredErrors(formAmbienteId, formHorario) != []
      ensures s.Rejected? ==> s.errors == RequiredErrors(formAmbienteId, formHorario)
      ensures s.Thrown? ==> s.message == "Function not implemented."
    {
      var errs := RequiredErrors(formAmbienteId, formHorario);
      if errs != [] {
        s := Rejected(errs);
      } else {
        s := Thrown("Function not implemented.");
      }
    }
  }
}
