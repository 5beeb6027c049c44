/** The two-step add-employee wizard of the HR and manager dashboards: step 1
    takes the personal details, step 2 the education and a list of past
    experiences, and "Add Employee" posts the payload. Both dashboards carry
    the same wizard. */
module Onboarding {
  import opened Records

  datatype Personal = Personal(
    name: string, email: string, department: string, position: string,
    startDate: string, phone: string, address: string)

  const BlankPersonal: Personal := Personal("", "", "", "", "", "", "")

  datatype Education = Education(degree: string, university: string, year: string, grade: string)

  const BlankEducation: Education := Education("", "", "", "")

  datatype Experience = Experience(company: string, role: string, years: string, description: string)

  const BlankExperience: Experience := Experience("", "", "", "")

  /** The four inputs of an experience entry. */
  datatype ExpField = Company | Role | Years | Description

  function GetExp(e: Experience, f: ExpField): string {
    match f
    case Company => e.company
    case Role => e.role
    case Years => e.years
    case Description => e.description
  }

  /** An experience entry with one field replaced. */
  function SetExp(e: Experience, f: ExpField, v: string): (r: Experience)
    ensures GetExp(r, f) == v
    ensures forall g :: g != f ==> GetExp(r, g) == GetExp(e, g)
  {
    match f
    case Company => e.(company := v)
    case Role => e.(role := v)
    case Years => e.(years := v)
    case Description => e.(description := v)
  }

  /** "+ Add Experience": one blank entry at the end. */
  function AddExperience(xs: seq<Experience>): (r: seq<Experience>)
    ensures |r| == |xs| + 1
    ensures r[..|xs|] == xs && r[|xs|] == BlankExperience
  {
    xs + [BlankExperience]
  }

  /** The "–" button of entry idx: `experiences.filter((_, i) => i !== idx)`,
      walking the list with the index counting down to the dropped entry. */
  function RemoveExperience(xs: seq<Experience>, idx: int): (r: seq<Experience>)
    ensures 0 <= idx < |xs| ==> r == xs[..idx] + xs[idx + 1..]
    ensures !(0 <= idx < |xs|) ==> r == xs
    decreases |xs|
  {
    if xs == [] then []
    else
      var rest := RemoveExperience(xs[1..], idx - 1);
      if idx == 0 then rest
      else
        ConsRemoved(xs, idx);
        [xs[0]] + rest
  }

  /** Removing entry idx > 0 keeps the head and removes entry idx - 1 of
      the tail. */
  lemma ConsRemoved<T>(xs: seq<T>, idx: int)
    requires xs != []
    ensures 0 < idx < |xs| ==> [xs[0]] + (xs[1..][..idx - 1] + xs[1..][idx..]) == xs[..idx] + xs[idx + 1..]
  {
    if 0 < idx < |xs| {
      assert xs[1..][..idx - 1] == xs[1..idx];
      assert xs[1..][idx..] == xs[idx + 1..];
      assert xs[..idx] == [xs[0]] + xs[1..idx];
    }
  }

  /** Removing drops exactly the entry at idx: one fewer, the others kept
      with their multiplicities. */
  lemma RemoveExperienceCount(xs: seq<Experience>, idx: int)
    requires 0 <= idx < |xs|
    ensures |RemoveExperience(xs, idx)| == |xs| - 1
    ensures multiset(RemoveExperience(xs, idx)) + multiset{xs[idx]} == multiset(xs)
  {
    SplitAt(xs, idx);
  }

  lemma SplitAt(xs: seq<Experience>, idx: int)
    requires 0 <= idx < |xs|
    ensures multiset(xs[..idx] + xs[idx + 1..]) + multiset{xs[idx]} == multiset(xs)
  {
    assert xs == xs[..idx] + [xs[idx]] + xs[idx + 1..];
  }

  /** Removing the entry just added gives back the list before. */
  lemma RemoveAfterAdd(xs: seq<Experience>)
    ensures RemoveExperience(AddExperience(xs), |xs|) == xs
  {
    assert AddExperience(xs)[..|xs|] == xs;
  }

  /** An input of entry idx: that entry's field becomes v, nothing else
      changes. */
  function EditExperience(xs: seq<Experience>, idx: int, f: ExpField, v: string): (r: seq<Experience>)
    requires 0 <= idx < |xs|
    ensures |r| == |xs|
    ensures GetExp(r[idx], f) == v
    ensures forall g :: g != f ==> GetExp(r[idx], g) == GetExp(xs[idx], g)
    ensures forall i :: 0 <= i < |xs| && i != idx ==> r[i] == xs[i]
  {
    xs[idx := SetExp(xs[idx], f, v)]
  }

  datatype PersonalField = FullName | Email | Phone | Address | Department | Position | StartDate

  function GetPersonal(p: Personal, f: PersonalField): string {
    match f
    case FullName => p.name
    case Email => p.email
    case Phone => p.phone
    case Address => p.address
    case Department => p.department
    case Position => p.position
    case StartDate => p.startDate
  }

  /** `setPersonal({ ...personal, <field>: value })`. */
  function SetPersonal(p: Personal, f: PersonalField, v: string): (r: Personal)
    ensures GetPersonal(r, f) == v
    ensures forall g :: g != f ==> GetPersonal(r, g) == GetPersonal(p, g)
  {
    match f
    case FullName => p.(name := v)
    case Email => p.(email := v)
    case Phone => p.(phone := v)
    case Address => p.(address := v)
    case Department => p.(department := v)
    case Position => p.(position := v)
    case StartDate => p.(startDate := v)
  }

  datatype EducationField = Degree | University | Year | Grade

  function GetEducation(e: Education, f: EducationField): string {
    match f
    case Degree => e.degree
    case University => e.university
    case Year => e.year
    case Grade => e.grade
  }

  /** `setEducation({ ...education, <field>: value })`. */
  function SetEducation(e: Education, f: EducationField, v: string): (r: Education)
    ensures GetEducation(r, f) == v
    ensures forall g :: g != f ==> GetEducation(r, g) == GetEducation(e, g)
  {
    match f
    case Degree => e.(degree := v)
    case University => e.(university := v)
    case Year => e.(year := v)
    case Grade => e.(grade := v)
  }

  /** What "Add Employee" posts: the personal fields, twelve days of leave,
      the experiences and the education. */
  datatype Payload = Payload(personal: Personal, leaves: int, experiences: seq<Experience>, education: Education)

  const LeaveAllowance: int := 12

  /** The wizard's state: whether the modal is shown, the step, and the three
      parts of the form. */
  datatype Wizard = Wizard(open: bool, step: int, personal: Personal, education: Education, experiences: seq<Experience>)

  const InitialWizard: Wizard := Wizard(false, 1, BlankPersonal, BlankEducation, [BlankExperience])

  /** What the user can do with the wizard; `Submit` carries how the post
      ended. */
  datatype WizardEvent =
    | OpenForm
    | CloseForm
    | NextStep
    | BackStep
    | TypePersonal(pf: PersonalField, pv: string)
    | TypeEducation(ef: EducationField, ev: string)
    | TypeExperience(idx: int, xf: ExpField, xv: string)
    | ClickAddExperience
    | ClickRemoveExperience(ridx: int)
    | Submit(outcome: Outcome)

  function PayloadOf(w: Wizard): (p: Payload)
    ensures p.leaves == 12
    ensures p.personal == w.personal && p.education == w.education && p.experiences == w.experiences
  {
    Payload(w.personal, LeaveAllowance, w.experiences, w.education)
  }

  /** The controls of step 1 and step 2 exist only while the modal shows
      that step; the remove button only while there is more than one entry.
      An event on a control that is not drawn changes nothing. A successful
      post clears the personal and education parts, hides the modal and
      goes back to step 1, but keeps the experiences; a failed one changes
      nothing. */
  function WizardStep(w: Wizard, e: WizardEvent): (r: Wizard)
    ensures e.OpenForm? ==> r == w.(open := true)
    ensures e.CloseForm? && w.open ==> !r.open && r.step == 1
    ensures e.NextStep? && w.open && w.step == 1 ==> r == w.(step := 2)
    ensures e.BackStep? && w.open && w.step == 2 ==> r == w.(step := 1)
    ensures e.Submit? && w.open && w.step == 2 && e.outcome == Ok ==>
      r == Wizard(false, 1, BlankPersonal, BlankEducation, w.experiences)
    ensures e.Submit? && e.outcome != Ok ==> r == w
    ensures |w.experiences| >= 1 ==> |r.experiences| >= 1
    ensures r.personal != w.personal ==> e.TypePersonal? || e.Submit?
    ensures r.education != w.education ==> e.TypeEducation? || e.Submit?
    ensures r.experiences != w.experiences ==>
      e.TypeExperience? || e.ClickAddExperience? || e.ClickRemoveExperience?
  {
    var onStep1, onStep2 := w.open && w.step == 1, w.open && w.step == 2;
    match e
    case OpenForm => w.(open := true)
    case CloseForm => if w.open then w.(open := false, step := 1) else w
    case NextStep => if onStep1 then w.(step := 2) else w
    case BackStep => if onStep2 then w.(step := 1) else w
    case TypePersonal(f, v) => if onStep1 then w.(personal := SetPersonal(w.personal, f, v)) else w
    case TypeEducation(f, v) => if onStep2 then w.(education := SetEducation(w.education, f, v)) else w
    case TypeExperience(i, f, v) =>
      if onStep2 && 0 <= i < |w.experiences| then w.(experiences := EditExperience(w.experiences, i, f, v))
      else w
    case ClickAddExperience => if onStep2 then w.(experiences := AddExperience(w.experiences)) else w
    case ClickRemoveExperience(i) =>
      if onStep2 && |w.experiences| > 1 && 0 <= i < |w.experiences| then
        RemoveExperienceCount(w.experiences, i);
        w.(experiences := RemoveExperience(w.experiences, i))
      else w
    case Submit(outcome) =>
      if onStep2 && outcome == Ok then Wizard(false, 1, BlankPersonal, BlankEducation, w.experiences) else w
  }

  function RunWizard(w: Wizard, events: seq<WizardEvent>): Wizard
    decreases |events|
  {
    if events == [] then w else RunWizard(WizardStep(w, events[0]), events[1..])
  }

  /** The wizard's invariant: the step is 1 or 2, a hidden modal is on step
      1, and there is at least one experience entry. */
  predicate WizardOk(w: Wizard) {
    (w.step == 1 || w.step == 2) && (!w.open ==> w.step == 1) && |w.experiences| >= 1
  }

  lemma StepKeepsWizardOk(w: Wizard, e: WizardEvent)
    requires WizardOk(w)
    ensures WizardOk(WizardStep(w, e))
  {
  }

  lemma {:induction false} RunKeepsWizardOk(w: Wizard, events: seq<WizardEvent>)
    requires WizardOk(w)
    ensures WizardOk(RunWizard(w, events))
    decreases |events|
  {
    if events != [] {
      StepKeepsWizardOk(w, events[0]);
      RunKeepsWizardOk(WizardStep(w, events[0]), events[1..]);
    }
  }

  /** Whatever the user does, the step stays in {1, 2}, the modal is on step
      1 whenever it is hidden, and the experience list is never empty. */
  lemma ReachableWizard(events: seq<WizardEvent>)
    ensures var w := RunWizard(InitialWizard, events);
      (w.step == 1 || w.step == 2) && (!w.open ==> w.step == 1) && |w.experiences| >= 1
  {
    RunKeepsWizardOk(InitialWizard, events);
  }

  /** Next then Back returns to the same form. */
  lemma NextThenBack(w: Wizard)
    requires w.open && w.step == 1
    ensures WizardStep(WizardStep(w, NextStep), BackStep) == w
  {
  }

  /** Typing in step 1 then going on to step 2 and posting sends what was
      typed, with twelve days of leave. */
  lemma PayloadCarriesInput(w: Wizard, f: PersonalField, v: string)
    requires w.open && w.step == 1
    ensures var w2 := WizardStep(WizardStep(w, TypePersonal(f, v)), NextStep);
      && w2.step == 2
      && GetPersonal(PayloadOf(w2).personal, f) == v
      && PayloadOf(w2).leaves == 12
      && PayloadOf(w2).experiences == w.experiences
  {
  }
}
