/**
 The booking wizard's state and its handlers. Each handler is one atomic
 update of the component's state, a pure function from the old state to the
 new one; "today" is passed in wherever the component reads the clock.

 Steps: 1 service selection, 2 date and time, 3 contact details,
 4 confirmation.
 */
module Wizard {
  import opened Options
  import opened Gregorian
  import opened CalendarCursor
  import opened CalendarDays

  /** A catalogue service; its icon is presentational and not modelled. */
  datatype Service = Service(id: int, title: string, description: string, price: string)

  datatype FormData = FormData(name: string, email: string, phone: string, countryCode: string, message: string)

  /** The `name` attributes of the form's text inputs. The country code has a
      select of its own with a separate handler. */
  datatype Field = Name | Email | Phone | Message

  datatype State = State(
    step: int,
    service: Option<Service>,
    date: Option<string>,
    time: Option<string>,
    form: FormData,
    cursor: Cursor)

  const InitialForm: FormData := FormData("", "", "", "+1", "")

  /** The state the component mounts with. */
  function Init(today: Date): (s: State)
    ensures s.step == 1 && s.service == None && s.date == None && s.time == None
    ensures s.form.countryCode == "+1"
    ensures forall f :: FieldValue(s.form, f) == ""
    ensures s.cursor == Start(today)
  {
    State(1, None, None, None, InitialForm, Start(today))
  }

  function FieldValue(form: FormData, f: Field): string {
    match f
    case Name => form.name
    case Email => form.email
    case Phone => form.phone
    case Message => form.message
  }

  /** JavaScript truthiness of a `string | null`: null and "" are false. */
  predicate Truthy(o: Option<string>) {
    o.Some? && o.value != ""
  }

  // ---------------------------------------------------------------------
  // Handlers
  // ---------------------------------------------------------------------

  function SelectService(s: State, svc: Service): (r: State)
    ensures r.service == Some(svc)
    ensures r.(service := s.service) == s
  {
    s.(service := Some(svc))
  }

  function ClickTime(s: State, t: string): (r: State)
    ensures r.time == Some(t)
    ensures r.(time := s.time) == s
  {
    s.(time := Some(t))
  }

  /** Picking a day of the displayed month stores its label unless the day is
      before today; a past day changes nothing. */
  function ClickDate(s: State, today: Date, day: int): (r: State)
    ensures IsPastDate(s.cursor, today, day) ==> r == s
    ensures !IsPastDate(s.cursor, today, day) ==> r.date == Some(Label(s.cursor, day))
    ensures r.(date := s.date) == s
  {
    if MakeDay(s.cursor.year, s.cursor.month, day) >= DayNumberOf(today) then
      s.(date := Some(Label(s.cursor, day)))
    else
      s
  }

  /** A text input writes its own field and no other. */
  function InputChange(s: State, f: Field, value: string): (r: State)
    ensures FieldValue(r.form, f) == value
    ensures forall g :: g != f ==> FieldValue(r.form, g) == FieldValue(s.form, g)
    ensures r.form.countryCode == s.form.countryCode
    ensures r.(form := s.form) == s
  {
    match f
    case Name => s.(form := s.form.(name := value))
    case Email => s.(form := s.form.(email := value))
    case Phone => s.(form := s.form.(phone := value))
    case Message => s.(form := s.form.(message := value))
  }

  function CountryCodeChange(s: State, code: string): (r: State)
    ensures r.form.countryCode == code
    ensures forall g :: FieldValue(r.form, g) == FieldValue(s.form, g)
    ensures r.(form := s.form) == s
  {
    s.(form := s.form.(countryCode := code))
  }

  function NextMonthClick(s: State): (r: State)
    ensures Index(r.cursor) == Index(s.cursor) + 1
    ensures r.(cursor := s.cursor) == s
  {
    s.(cursor := NextMonth(s.cursor))
  }

  function PrevMonthClick(s: State, today: Date): (r: State)
    ensures s.cursor == Start(today) ==> r == s
    ensures s.cursor != Start(today) ==> Index(r.cursor) == Index(s.cursor) - 1
    ensures r.(cursor := s.cursor) == s
  {
    s.(cursor := PrevMonth(s.cursor, today))
  }

  /** Submitting the contact form moves to the confirmation. */
  function Submit(s: State): (r: State)
    ensures r.step == 4
    ensures r.(step := s.step) == s
  {
    s.(step := 4)
  }

  function GoBack(s: State): (r: State)
    ensures r.step == s.step - 1
    ensures r.(step := s.step) == s
  {
    s.(step := s.step - 1)
  }

  function ProceedToDateSelection(s: State): (r: State)
    ensures s.service.Some? ==> r.step == 2
    ensures s.service.None? ==> r == s
    ensures r.(step := s.step) == s
  {
    if s.service.Some? then s.(step := 2) else s
  }

  function ProceedToRegistration(s: State): (r: State)
    ensures Truthy(s.date) && Truthy(s.time) ==> r.step == 3
    ensures !(Truthy(s.date) && Truthy(s.time)) ==> r == s
    ensures r.(step := s.step) == s
  {
    if Truthy(s.date) && Truthy(s.time) then s.(step := 3) else s
  }

  /** "Book Another Consultation" returns to the first step and keeps
      everything else: the service, date, time and contact details stay. */
  function BookAnother(s: State): (r: State)
    ensures r.step == 1
    ensures r.service == s.service && r.date == s.date && r.time == s.time
    ensures r.form == s.form && r.cursor == s.cursor
  {
    s.(step := 1)
  }

  /** The service title shown on the date and contact steps. */
  function ServiceTitle(service: Option<Service>): (t: string)
    ensures service.Some? ==> t == service.value.title
    ensures service.None? ==> t == "No service selected"
  {
    match service
    case Some(svc) => svc.title
    case None => "No service selected"
  }

  /** The progress bar's percentage: a quarter per step, 0 off the steps. */
  function ProgressPercent(step: int): (p: int)
    ensures 1 <= step <= 4 ==> p == 25 * step
    ensures !(1 <= step <= 4) ==> p == 0
    ensures 0 <= p <= 100
  {
    if step == 1 then 25
    else if step == 2 then 50
    else if step == 3 then 75
    else if step == 4 then 100
    else 0
  }

  // ---------------------------------------------------------------------
  // Properties of single handlers
  // ---------------------------------------------------------------------

  /** Choosing a service replaces any earlier choice. */
  lemma ServiceLastWriteWins(s: State, a: Service, b: Service)
    ensures SelectService(SelectService(s, a), b) == SelectService(s, b)
    ensures SelectService(s, a).service == SelectService(s, b).service <==> a == b
    ensures ServiceTitle(SelectService(SelectService(s, a), b).service) == b.title
  {
  }

  /** Choosing a time replaces any earlier choice. */
  lemma TimeLastWriteWins(s: State, a: string, b: string)
    ensures ClickTime(ClickTime(s, a), b) == ClickTime(s, b)
  {
  }

  /** Edits to different inputs do not interfere, and a second edit to the
      same input overrides the first. */
  lemma InputChangesCommute(s: State, f: Field, a: string, g: Field, b: string)
    ensures f != g ==> InputChange(InputChange(s, f, a), g, b) == InputChange(InputChange(s, g, b), f, a)
    ensures f == g ==> InputChange(InputChange(s, f, a), g, b) == InputChange(s, g, b)
  {
  }

  /** A day click changes the date exactly when the day is not past, and
      after a successful click the displayed month highlights exactly that
      day. */
  lemma ClickDateSelectsOneCell(s: State, today: Date, day: int)
    requires Valid(today) && 1 <= day <= MonthLength(s.cursor)
    ensures ClickDate(s, today, day).date != s.date ==> !IsPastDate(s.cursor, today, day)
    ensures !IsPastDate(s.cursor, today, day) ==>
      forall d :: IsSelected(ClickDate(s, today, day).date, s.cursor, d) <==> d == day
    ensures IsToday(s.cursor, today, day) ==> ClickDate(s, today, day).date == Some(Label(s.cursor, day))
  {
    if !IsPastDate(s.cursor, today, day) {
      forall d
        ensures IsSelected(ClickDate(s, today, day).date, s.cursor, d) <==> d == day
      {
        SelectionHighlightsOneCell(s.cursor, day, s.cursor, d);
      }
    }
  }

  /** Going back from the date step and continuing again returns to the same
      state; likewise from the contact step. */
  lemma BackThenContinue(s: State)
    ensures s.step == 2 && s.service.Some? ==> ProceedToDateSelection(GoBack(s)) == s
    ensures s.step == 3 && Truthy(s.date) && Truthy(s.time) ==> ProceedToRegistration(GoBack(s)) == s
  {
  }

  /** Because "Book Another" keeps the draft, continuing from the first step
      succeeds at once with the previous service, and the date step is
      immediately passable again with the previous date and time. */
  lemma BookAnotherKeepsDraft(s: State)
    requires s.step == 4 && s.service.Some? && Truthy(s.date) && Truthy(s.time)
    ensures ProceedToDateSelection(BookAnother(s)).step == 2
    ensures ProceedToRegistration(ProceedToDateSelection(BookAnother(s))).step == 3
    ensures ProceedToRegistration(ProceedToDateSelection(BookAnother(s))).(step := 4) == s
  {
  }
}
