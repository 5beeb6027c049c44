/** The stand-alone employee onboarding form: an eight-field record, six of
    which have inputs, posted as it stands; an accepted post clears it. */
module EmployeeForm {
  import opened Records

  datatype Employee = Employee(
    name: string, age: string, email: string, phone: string,
    totalExperience: string, pastExperience: string,
    designation: string, department: string)

  const EmptyEmployee: Employee := Employee("", "", "", "", "", "", "", "")

  datatype EmpField = Name | Age | Email | Phone | TotalExperience | PastExperience | Designation | Department

  function Get(r: Employee, k: EmpField): string {
    match k
    case Name => r.name
    case Age => r.age
    case Email => r.email
    case Phone => r.phone
    case TotalExperience => r.totalExperience
    case PastExperience => r.pastExperience
    case Designation => r.designation
    case Department => r.department
  }

  /** `handleChange`: `setEmployee({ ...employee, [e.target.name]: e.target.value })`. */
  function Update(r: Employee, k: EmpField, v: string): (t: Employee)
    ensures Get(t, k) == v
    ensures forall j :: j != k ==> Get(t, j) == Get(r, j)
  {
    match k
    case Name => r.(name := v)
    case Age => r.(age := v)
    case Email => r.(email := v)
    case Phone => r.(phone := v)
    case TotalExperience => r.(totalExperience := v)
    case PastExperience => r.(pastExperience := v)
    case Designation => r.(designation := v)
    case Department => r.(department := v)
  }

  /** The form draws inputs for six fields only; designation and department
      have none. */
  predicate HasInput(k: EmpField) {
    k != Designation && k != Department
  }

  /** Every input but "Past Experience" carries `required`, so the browser
      fires the submit handler only when those five are filled in. */
  predicate Complete(r: Employee) {
    forall k :: HasInput(k) && k != PastExperience ==> Get(r, k) != ""
  }

  datatype FormEvent = Change(field: EmpField, value: string) | Submit(outcome: Outcome)

  /** The record after an event and the body posted, if any. */
  datatype Posted = Posted(employee: Employee, body: Option<Employee>)

  /** Typing changes the named field (there is no input for the other two).
      Submitting a complete form posts the record as it stands; an ok
      response clears every field, a rejected post or a network error keeps
      the record. */
  function FormStep(r: Employee, e: FormEvent): (p: Posted)
    ensures e.Change? && HasInput(e.field) ==>
      p.body == None && p.employee == Update(r, e.field, e.value)
    ensures e.Change? && !HasInput(e.field) ==> p == Posted(r, None)
    ensures e.Submit? && !Complete(r) ==> p == Posted(r, None)
    ensures e.Submit? && Complete(r) ==> p.body == Some(r)
    ensures e.Submit? && Complete(r) && e.outcome == Ok ==> p.employee == EmptyEmployee
    ensures e.Submit? && e.outcome != Ok ==> p.employee == r
  {
    match e
    case Change(k, v) => if HasInput(k) then Posted(Update(r, k, v), None) else Posted(r, None)
    case Submit(outcome) =>
      if !Complete(r) then Posted(r, None)
      else if outcome == Ok then Posted(EmptyEmployee, Some(r))
      else Posted(r, Some(r))
  }

  function FormRun(r: Employee, events: seq<FormEvent>): Employee
    decreases |events|
  {
    if events == [] then r else FormRun(FormStep(r, events[0]).employee, events[1..])
  }

  /** Designation and department start empty and no event writes them, so
      every body ever posted has them empty. */
  lemma {:induction false} UninputFieldsStayEmpty(r: Employee, events: seq<FormEvent>)
    requires r.designation == "" && r.department == ""
    ensures FormRun(r, events).designation == "" && FormRun(r, events).department == ""
    decreases |events|
  {
    if events != [] {
      var next := FormStep(r, events[0]).employee;
      assert Get(next, Designation) == "" && Get(next, Department) == "";
      UninputFieldsStayEmpty(next, events[1..]);
    }
  }

  /** Whatever the user does, a body posted from the form has an empty
      designation and department. */
  lemma PostedBodiesLackDesignation(events: seq<FormEvent>, e: FormEvent)
    ensures var p := FormStep(FormRun(EmptyEmployee, events), e);
      p.body.Some? ==> p.body.value.designation == "" && p.body.value.department == ""
  {
    UninputFieldsStayEmpty(EmptyEmployee, events);
  }

  /** An empty form cannot be submitted. */
  lemma EmptyFormIsIncomplete()
    ensures !Complete(EmptyEmployee)
  {
    assert HasInput(Name) && Get(EmptyEmployee, Name) == "";
  }
}
