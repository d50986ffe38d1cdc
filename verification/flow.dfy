/**
 The wizard as the page drives it: each step shows its own controls, some
 of them disabled, and a click on a control that is hidden or disabled has
 no effect. Over any sequence of user actions from the initial state, the
 step stays within 1..4, a later step always has the data the earlier steps
 collect, the calendar never shows a month before the current one, and the
 stored date is never a past day.
 */
module Flow {
  import opened Options
  import opened Gregorian
  import opened CalendarCursor
  import opened Decimal
  import opened CalendarDays
  import opened Wizard

  /** The service catalogue (icons left out). */
  const Services: seq<Service> := [
    Service(1, "SEO Optimization", "Improve your website ranking and organic traffic", "Starting at $500/mo"),
    Service(2, "Website Development", "Custom website design and development", "Starting at $1,200"),
    Service(3, "Social Media Marketing", "Grow your brand presence across platforms", "Starting at $800/mo"),
    Service(4, "Content Marketing", "Strategic content creation and distribution", "Starting at $600/mo"),
    Service(5, "PPC Advertising", "Targeted paid campaigns for quick results", "Starting at $1,000/mo"),
    Service(6, "Mobile App Marketing", "Promote and optimize your mobile application", "Starting at $1,500/mo")
  ]

  const CountryCodes: seq<string> := ["+1", "+44", "+61", "+64", "+49", "+33", "+91", "+86", "+52", "+81"]

  const TimeSlots: seq<string> := [
    "9:00 am", "9:30 am", "10:00 am", "10:30 am",
    "11:00 am", "11:30 am", "12:00 pm", "12:30 pm",
    "1:00 pm", "1:30 pm", "2:00 pm", "2:30 pm",
    "3:00 pm", "3:30 pm", "4:00 pm", "4:30 pm",
    "5:00 pm", "5:30 pm"
  ]

  /** One user action on a control of the page. */
  datatype Action =
    | ChooseService(service: Service)
    | ContinueToDate
    | PrevArrow
    | NextArrow
    | PickDay(day: int)
    | PickTime(time: string)
    | ContinueToRegistration
    | Back
    | Type(field: Field, value: string)
    | ChooseCountryCode(code: string)
    | Confirm
    | BookAgain

  /** Whether the action's control is on screen and enabled in state `s`. */
  predicate Enabled(s: State, today: Date, a: Action) {
    match a
    case ChooseService(svc) => s.step == 1 && svc in Services
    case ContinueToDate => s.step == 1 && s.service.Some?
    case PrevArrow => s.step == 2 && s.cursor != Start(today)
    case NextArrow => s.step == 2
    case PickDay(day) =>
      s.step == 2 && 1 <= day <= MonthLength(s.cursor) && !IsPastDate(s.cursor, today, day)
    case PickTime(t) => s.step == 2 && t in TimeSlots
    case ContinueToRegistration => s.step == 2 && Truthy(s.date) && Truthy(s.time)
    case Back => s.step == 2 || s.step == 3
    case Type(_, _) => s.step == 3
    case ChooseCountryCode(code) => s.step == 3 && code in CountryCodes
    case Confirm => s.step == 3
    case BookAgain => s.step == 4
  }

  /** The handler the action's control calls. */
  function Apply(s: State, today: Date, a: Action): State {
    match a
    case ChooseService(svc) => SelectService(s, svc)
    case ContinueToDate => ProceedToDateSelection(s)
    case PrevArrow => PrevMonthClick(s, today)
    case NextArrow => NextMonthClick(s)
    case PickDay(day) => ClickDate(s, today, day)
    case PickTime(t) => ClickTime(s, t)
    case ContinueToRegistration => ProceedToRegistration(s)
    case Back => GoBack(s)
    case Type(f, v) => InputChange(s, f, v)
    case ChooseCountryCode(code) => CountryCodeChange(s, code)
    case Confirm => Submit(s)
    case BookAgain => BookAnother(s)
  }

  /** An action on a hidden or disabled control does nothing. */
  function Press(s: State, today: Date, a: Action): (r: State)
    ensures !Enabled(s, today, a) ==> r == s
  {
    if Enabled(s, today, a) then Apply(s, today, a) else s
  }

  function Run(s: State, today: Date, actions: seq<Action>): State
    decreases |actions|
  {
    if |actions| == 0 then s else Run(Press(s, today, actions[0]), today, actions[1..])
  }

  /** The stored date, if any, is the label of a real day that is not before
      today, and every cell whose label it is is such a day. */
  ghost predicate DateIsBookable(s: State, today: Date) {
    && (s.date.Some? ==>
          exists c: Cursor, d: int ::
            s.date == Some(Label(c, d)) && Valid(Date(c.year, c.month, d)) && !IsPastDate(c, today, d))
    && (forall c: Cursor, d: int ::
          IsSelected(s.date, c, d) ==> Valid(Date(c.year, c.month, d)) && !IsPastDate(c, today, d))
  }

  /** A stored date too short to be a label, such as "x", is not bookable:
      the date can only ever hold a day's label. */
  lemma ShortDateNotBookable(s: State, today: Date)
    requires s.date.Some? && |s.date.value| < 8
    ensures !DateIsBookable(s, today)
  {
  }

  /** What holds in every state the page can reach. */
  ghost predicate Invariant(s: State, today: Date) {
    && 1 <= s.step <= 4
    && (s.step >= 2 ==> s.service.Some?)
    && (s.step >= 3 ==> Truthy(s.date) && Truthy(s.time))
    && NotBefore(s.cursor, today)
    && DateIsBookable(s, today)
  }

  // ---------------------------------------------------------------------
  // Properties
  // ---------------------------------------------------------------------

  lemma InitEstablishes(today: Date)
    ensures Invariant(Init(today), today)
  {
  }

  /** Every enabled action keeps the invariant. */
  lemma {:induction false} PressPreserves(s: State, today: Date, a: Action)
    requires Invariant(s, today)
    ensures Invariant(Press(s, today, a), today)
  {
    var r := Press(s, today, a);
    if Enabled(s, today, a) {
      match a
      case PrevArrow =>
        NotBeforeIsIndexOrder(s.cursor, today);
        NotBeforeIsIndexOrder(r.cursor, today);
      case NextArrow =>
        NotBeforeIsIndexOrder(s.cursor, today);
        NotBeforeIsIndexOrder(r.cursor, today);
      case PickDay(day) =>
        assert r.date == Some(Label(s.cursor, day));
        assert Valid(Date(s.cursor.year, s.cursor.month, day));
        forall c: Cursor, d: int | IsSelected(r.date, c, d)
          ensures Valid(Date(c.year, c.month, d)) && !IsPastDate(c, today, d)
        {
          SelectionHighlightsOneCell(s.cursor, day, c, d);
        }
      case _ =>
    }
  }

  /** The invariant holds after any sequence of actions. */
  lemma {:induction false} RunPreserves(s: State, today: Date, actions: seq<Action>)
    requires Invariant(s, today)
    ensures Invariant(Run(s, today, actions), today)
    decreases |actions|
  {
    if |actions| > 0 {
      PressPreserves(s, today, actions[0]);
      RunPreserves(Press(s, today, actions[0]), today, actions[1..]);
    }
  }

  /** Every state reachable from the initial one satisfies the invariant. */
  lemma Reachable(today: Date, actions: seq<Action>)
    ensures Invariant(Run(Init(today), today, actions), today)
  {
    InitEstablishes(today);
    RunPreserves(Init(today), today, actions);
  }

  /** One action moves the step by at most one, except that the confirmation
      step restarts at the first. */
  lemma PressMovesAdjacent(s: State, today: Date, a: Action)
    requires Invariant(s, today)
    ensures var r := Press(s, today, a);
      r.step == s.step || r.step == s.step + 1 || r.step == s.step - 1 || (s.step == 4 && r.step == 1)
  {
  }

  /** The step handler on its own does not keep the step in range: going
      back from the first step reaches step 0. Only the absence of a back
      control on the first step rules this out. */
  lemma GoBackUnguarded(s: State, today: Date)
    requires s.step == 1
    ensures GoBack(s).step == 0 && ProgressPercent(GoBack(s).step) == 0
    ensures Press(s, today, Back) == s
  {
  }

  /** Running two action sequences one after the other is running their
      concatenation. */
  lemma {:induction false} RunAppend(s: State, today: Date, first: seq<Action>, second: seq<Action>)
    ensures Run(s, today, first + second) == Run(Run(s, today, first), today, second)
    decreases |first|
  {
    if |first| > 0 {
      assert (first + second)[1..] == first[1..] + second;
      RunAppend(Press(s, today, first[0]), today, first[1..], second);
    } else {
      assert first + second == second;
    }
  }

  lemma RunCons(s: State, today: Date, a: Action, rest: seq<Action>)
    ensures Run(s, today, [a] + rest) == Run(Press(s, today, a), today, rest)
  {
    assert ([a] + rest)[1..] == rest;
  }

  /** Choose "Website Development", continue, pick `day` at 10:00 am and
      continue. */
  const ServiceActions: seq<Action> := [ChooseService(Services[1]), ContinueToDate]

  const TimeActions: seq<Action> := [PickTime("10:00 am"), ContinueToRegistration]

  function BookingActions(day: int): seq<Action> {
    ServiceActions + [PickDay(day)] + TimeActions
  }

  const ContactActions: seq<Action> := [
    Type(Name, "Jane Doe"), Type(Email, "jane@x.com"), Type(Phone, "5551234"),
    ChooseCountryCode("+44"), Confirm]

  /** On the month the calendar opens on, a day from today to the month's end
      can be picked and stores its label. */
  lemma PickDayFromToday(s: State, today: Date, day: int)
    requires Valid(today) && s.step == 2 && s.cursor == Start(today)
    requires today.day <= day <= MonthLength(s.cursor)
    ensures Enabled(s, today, PickDay(day))
    ensures Press(s, today, PickDay(day)) == s.(date := Some(Label(s.cursor, day)))
  {
    PastDaysOfShownMonth(s.cursor, today, day);
  }

  /** Choosing the second service and continuing reaches the date step. */
  lemma ServiceWalkThrough(s: State, today: Date)
    requires s.step == 1
    ensures Run(s, today, ServiceActions) == s.(step := 2, service := Some(Services[1]))
  {
    var s1 := s.(service := Some(Services[1]));
    assert Press(s, today, ServiceActions[0]) == s1;
    assert Press(s1, today, ContinueToDate) == s1.(step := 2);
    RunCons(s1, today, ContinueToDate, []);
    RunCons(s, today, ServiceActions[0], [ContinueToDate]);
  }

  /** With a date stored, picking 10:00 am and continuing reaches the
      contact step. */
  lemma TimeWalkThrough(s: State, today: Date)
    requires s.step == 2 && Truthy(s.date)
    ensures Run(s, today, TimeActions) == s.(step := 3, time := Some("10:00 am"))
  {
    var s1 := s.(time := Some("10:00 am"));
    assert Press(s, today, TimeActions[0]) == s1;
    assert Press(s1, today, ContinueToRegistration) == s1.(step := 3);
    RunCons(s1, today, ContinueToRegistration, []);
    RunCons(s, today, TimeActions[0], [ContinueToRegistration]);
  }

  /** Walk-through, first half: on any day, picking a later day of the current
      month reaches the contact step with that day's label and the chosen
      service and time. */
  lemma BookingWalkThrough(today: Date, day: int)
    requires Valid(today) && today.day <= day <= MonthLength(Start(today))
    ensures Run(Init(today), today, BookingActions(day))
      == Init(today).(step := 3, service := Some(Services[1]),
                      date := Some(Label(Start(today), day)), time := Some("10:00 am"))
  {
    var s0 := Init(today);
    var s2 := s0.(step := 2, service := Some(Services[1]));
    var s3 := s2.(date := Some(Label(Start(today), day)));
    ServiceWalkThrough(s0, today);
    PickDayFromToday(s2, today, day);
    RunCons(s2, today, PickDay(day), TimeActions);
    TimeWalkThrough(s3, today);
    RunAppend(s0, today, ServiceActions, [PickDay(day)] + TimeActions);
    assert BookingActions(day) == ServiceActions + ([PickDay(day)] + TimeActions);
  }

  /** Walk-through, second half: fill in name, email, phone and country code
      +44 and confirm. */
  lemma ContactWalkThrough(s: State, today: Date)
    requires s.step == 3 && s.form == InitialForm
    ensures Run(s, today, ContactActions)
      == s.(step := 4, form := FormData("Jane Doe", "jane@x.com", "5551234", "+44", ""))
  {
    var s1 := s.(form := s.form.(name := "Jane Doe"));
    var s2 := s1.(form := s1.form.(email := "jane@x.com"));
    var s3 := s2.(form := s2.form.(phone := "5551234"));
    var s4 := s3.(form := s3.form.(countryCode := "+44"));
    var s5 := s4.(step := 4);
    assert Press(s, today, Type(Name, "Jane Doe")) == s1;
    assert Press(s1, today, Type(Email, "jane@x.com")) == s2;
    assert Press(s2, today, Type(Phone, "5551234")) == s3;
    assert Press(s3, today, ChooseCountryCode("+44")) == s4;
    assert Press(s4, today, Confirm) == s5;
    RunCons(s4, today, Confirm, []);
    RunCons(s3, today, ChooseCountryCode("+44"), [Confirm]);
    RunCons(s2, today, Type(Phone, "5551234"), ContactActions[3..]);
    RunCons(s1, today, Type(Email, "jane@x.com"), ContactActions[2..]);
    RunCons(s, today, Type(Name, "Jane Doe"), ContactActions[1..]);
  }

  /** The whole walk-through ends on the confirmation, which shows exactly
      what was entered; the message stays empty. */
  lemma WalkThrough(today: Date, day: int)
    requires Valid(today) && today.day <= day <= MonthLength(Start(today))
    ensures
      var r := Run(Init(today), today, BookingActions(day) + ContactActions);
      r.step == 4 && r.service == Some(Services[1]) &&
      r.date == Some(Label(Start(today), day)) && r.time == Some("10:00 am") &&
      r.form == FormData("Jane Doe", "jane@x.com", "5551234", "+44", "")
  {
    RunAppend(Init(today), today, BookingActions(day), ContactActions);
    BookingWalkThrough(today, day);
    ContactWalkThrough(Run(Init(today), today, BookingActions(day)), today);
  }
}
