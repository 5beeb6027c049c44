/** The employee's leave request form: four fields, each edited on its own,
    passed on and cleared when the form is submitted. */
module LeaveRequestForm {
  datatype LeaveForm = LeaveForm(leaveType: string, startDate: string, endDate: string, reason: string)

  const EmptyForm: LeaveForm := LeaveForm("", "", "", "")

  /** The `name` attribute of each input. */
  datatype LeaveField = LeaveType | StartDate | EndDate | Reason

  function Get(f: LeaveForm, k: LeaveField): string {
    match k
    case LeaveType => f.leaveType
    case StartDate => f.startDate
    case EndDate => f.endDate
    case Reason => f.reason
  }

  /** `handleChange`: `setForm({ ...form, [e.target.name]: e.target.value })`. */
  function Update(f: LeaveForm, k: LeaveField, v: string): (r: LeaveForm)
    ensures Get(r, k) == v
    ensures forall j :: j != k ==> Get(r, j) == Get(f, j)
  {
    match k
    case LeaveType => f.(leaveType := v)
    case StartDate => f.(startDate := v)
    case EndDate => f.(endDate := v)
    case Reason => f.(reason := v)
  }

  /** Two forms with the same value in every field are the same form. */
  lemma FieldsDetermineForm(f: LeaveForm, g: LeaveForm)
    requires forall k :: Get(f, k) == Get(g, k)
    ensures f == g
  {
    assert Get(f, LeaveType) == Get(g, LeaveType) && Get(f, StartDate) == Get(g, StartDate);
    assert Get(f, EndDate) == Get(g, EndDate) && Get(f, Reason) == Get(g, Reason);
  }

  /** Writing the value a field already holds changes nothing, and the last
      of two writes to the same field wins. */
  lemma UpdateLaws(f: LeaveForm, k: LeaveField, v: string, w: string)
    ensures Update(f, k, Get(f, k)) == f
    ensures Update(Update(f, k, v), k, w) == Update(f, k, w)
  {
    FieldsDetermineForm(Update(f, k, Get(f, k)), f);
    FieldsDetermineForm(Update(Update(f, k, v), k, w), Update(f, k, w));
  }

  /** Every input carries `required`, so the browser fires the submit
      handler only when all four fields are filled in. */
  predicate Complete(f: LeaveForm) {
    forall k :: Get(f, k) != ""
  }

  /** The form after an event and what was passed to `onSubmit`, if
      anything. */
  datatype Submitted = Submitted(form: LeaveForm, sent: seq<LeaveForm>)

  datatype FormEvent = Change(field: LeaveField, value: string) | SubmitForm

  /** `handleSubmit`: `onSubmit(form)` with the current form, then every
      field back to "". */
  function FormStep(f: LeaveForm, e: FormEvent): (r: Submitted)
    ensures e.Change? ==> r.sent == [] && Get(r.form, e.field) == e.value
    ensures e.Change? ==> forall j :: j != e.field ==> Get(r.form, j) == Get(f, j)
    ensures e.SubmitForm? && Complete(f) ==> r.sent == [f] && r.form == EmptyForm
    ensures e.SubmitForm? && !Complete(f) ==> r.sent == [] && r.form == f
  {
    match e
    case Change(k, v) => Submitted(Update(f, k, v), [])
    case SubmitForm => if Complete(f) then Submitted(EmptyForm, [f]) else Submitted(f, [])
  }

  /** The requests passed on over a series of events, in order, and the
      form left at the end. */
  function FormRun(f: LeaveForm, events: seq<FormEvent>): Submitted
    decreases |events|
  {
    if events == [] then Submitted(f, [])
    else
      var first := FormStep(f, events[0]);
      var rest := FormRun(first.form, events[1..]);
      Submitted(rest.form, first.sent + rest.sent)
  }

  /** Every request passed on was complete when it was sent. */
  lemma {:induction false} SentAreComplete(f: LeaveForm, events: seq<FormEvent>)
    ensures forall g :: g in FormRun(f, events).sent ==> Complete(g)
    decreases |events|
  {
    if events != [] {
      SentAreComplete(FormStep(f, events[0]).form, events[1..]);
    }
  }

  /** Filling in all four fields and submitting sends exactly what was typed
      and leaves the form empty again. */
  lemma FillAndSubmit(t: string, s: string, e: string, why: string)
    requires t != "" && s != "" && e != "" && why != ""
    ensures var run := FormRun(EmptyForm, [Change(LeaveType, t), Change(StartDate, s), Change(EndDate, e), Change(Reason, why), SubmitForm]);
      run.sent == [LeaveForm(t, s, e, why)] && run.form == EmptyForm
  {
    var f1 := LeaveForm(t, "", "", "");
    var f2 := LeaveForm(t, s, "", "");
    var f3 := LeaveForm(t, s, e, "");
    var f4 := LeaveForm(t, s, e, why);
    assert Complete(f4) by {
      forall k ensures Get(f4, k) != "" {}
    }
    var evs := [Change(LeaveType, t), Change(StartDate, s), Change(EndDate, e), Change(Reason, why), SubmitForm];
    assert FormRun(EmptyForm, []) == Submitted(EmptyForm, []);
    assert FormRun(f4, evs[4..]) == Submitted(EmptyForm, [f4]);
    assert FormRun(f3, evs[3..]) == Submitted(EmptyForm, [f4]);
    assert FormRun(f2, evs[2..]) == Submitted(EmptyForm, [f4]);
    assert FormRun(f1, evs[1..]) == Submitted(EmptyForm, [f4]);
    assert FormRun(EmptyForm, evs) == Submitted(EmptyForm, [f4]);
  }
}
