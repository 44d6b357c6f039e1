/** The application component (App.tsx): it holds the current state in `data`, replaces it on
    every action and, whenever it changes, saves it, unless it has no students yet. */
module AppComponent {
  import opened Wrappers
  import opened Seqs
  import opened Types
  import opened Integrity
  import opened StorageService
  import Actions

  /** The slot after the save effect has seen `data`: overwritten with it when it has students,
      untouched otherwise, so the empty state present before the first load never erases a
      saved dataset. */
  function AfterSaveEffect(slot: Option<Entry>, data: AppState): (r: Option<Entry>)
    ensures r == slot || (r == Saved(data) && |data.students| > 0)
    ensures |data.students| > 0 ==> r == Saved(data) && Load(r) == data
    ensures |data.students| == 0 ==> r == slot
  {
    if |data.students| > 0 then Saved(data) else slot
  }

  /** Deleting the last remaining students is never saved: the guard skips the save, so the slot
      still holds the old state and the next load brings the deleted students back. */
  lemma DeletingLastStudentsIsNotSaved(st: AppState, id: string)
    requires |st.students| > 0
    requires forall s :: s in st.students ==> s.id == id
    ensures Actions.DeleteStudent(st, id, true).students == []
    ensures AfterSaveEffect(Saved(st), Actions.DeleteStudent(st, id, true)) == Saved(st)
    ensures Load(AfterSaveEffect(Saved(st), Actions.DeleteStudent(st, id, true))) == st
  {
  }

  class App {
    var data: AppState
    const store: Storage

    /** The component as first rendered: an empty state, before anything is loaded. */
    constructor (store: Storage)
      ensures data == AppState([], [], []) && this.store == store
    {
      data := AppState([], [], []);
      this.store := store;
    }

    /** The save effect, run after each change of `data`. */
    method SaveEffect()
      modifies store
      ensures store.slot == AfterSaveEffect(old(store.slot), data)
    {
      if |data.students| > 0 {
        store.SaveData(data);
      }
    }

    /** Mounting: the save effect first sees the empty initial state, then the loaded state
        replaces it and the save effect runs again. A previously saved state is never lost,
        and an empty slot ends up holding the seed. */
    method Mount()
      requires data == AppState([], [], [])
      modifies this, store
      ensures data == Load(old(store.slot))
      ensures store.slot == AfterSaveEffect(old(store.slot), data)
      ensures old(store.slot).Some? && old(store.slot).value.Serialized? ==> store.slot == old(store.slot)
      ensures old(store.slot).None? || old(store.slot) == Some(Blank) ==> store.slot == Saved(SEED)
    {
      SaveEffect();
      data := store.LoadData();
      SaveEffect();
    }

    /** `addStudent`; the generated id is assumed unused. */
    method AddStudent(d: Actions.StudentDraft, newId: string)
      requires newId !in Keys(data.students, IdOfStudent)
      modifies this, store
      ensures data == Actions.AddStudent(old(data), d, newId)
      ensures WellFormed(old(data)) ==> WellFormed(data)
      ensures store.slot == AfterSaveEffect(old(store.slot), data)
    {
      if WellFormed(data) {
        Actions.AddStudentKeepsWellFormed(data, d, newId);
      }
      data := Actions.AddStudent(data, d, newId);
      SaveEffect();
    }

    /** `addAssessment`; the generated id is assumed unused. */
    method AddAssessment(d: Actions.AssessmentDraft, newId: string)
      requires newId !in Keys(data.assessments, IdOfAssessment)
      modifies this, store
      ensures data == Actions.AddAssessment(old(data), d, newId)
      ensures WellFormed(old(data)) ==> WellFormed(data)
      ensures store.slot == AfterSaveEffect(old(store.slot), data)
    {
      if WellFormed(data) {
        Actions.AddAssessmentKeepsWellFormed(data, d, newId);
      }
      data := Actions.AddAssessment(data, d, newId);
      SaveEffect();
    }

    /** `deleteStudent`: a declined confirmation neither changes nor saves anything. */
    method DeleteStudent(id: string, confirmed: bool)
      modifies this, store
      ensures data == Actions.DeleteStudent(old(data), id, confirmed)
      ensures confirmed ==> forall g :: g in data.grades ==> g.studentId != id
      ensures WellFormed(old(data)) ==> WellFormed(data)
      ensures store.slot == if confirmed then AfterSaveEffect(old(store.slot), data) else old(store.slot)
    {
      if WellFormed(data) {
        Actions.DeleteStudentKeepsWellFormed(data, id, confirmed);
      }
      if confirmed {
        data := Actions.DeleteStudent(data, id, confirmed);
        SaveEffect();
      }
    }

    /** `deleteAssessment`: a declined confirmation neither changes nor saves anything. */
    method DeleteAssessment(id: string, confirmed: bool)
      modifies this, store
      ensures data == Actions.DeleteAssessment(old(data), id, confirmed)
      ensures confirmed ==> forall g :: g in data.grades ==> g.assessmentId != id
      ensures WellFormed(old(data)) ==> WellFormed(data)
      ensures store.slot == if confirmed then AfterSaveEffect(old(store.slot), data) else old(store.slot)
    {
      if WellFormed(data) {
        Actions.DeleteAssessmentKeepsWellFormed(data, id, confirmed);
      }
      if confirmed {
        data := Actions.DeleteAssessment(data, id, confirmed);
        SaveEffect();
      }
    }

    /** `updateGrade`; the generated id, used only when a new grade is created, is assumed unused. */
    method UpdateGrade(input: Actions.GradeInput, newId: string)
      requires newId !in Keys(data.grades, IdOfGrade)
      modifies this, store
      ensures data == Actions.UpdateGrade(old(data), input, newId)
      ensures (WellFormed(old(data)) && input.studentId in Keys(old(data).students, IdOfStudent) &&
               input.assessmentId in Keys(old(data).assessments, IdOfAssessment)) ==> WellFormed(data)
      ensures store.slot == AfterSaveEffect(old(store.slot), data)
    {
      if WellFormed(data) && input.studentId in Keys(data.students, IdOfStudent) &&
         input.assessmentId in Keys(data.assessments, IdOfAssessment) {
        Actions.UpdateGradeKeepsWellFormed(data, input, newId);
      }
      data := Actions.UpdateGrade(data, input, newId);
      SaveEffect();
    }
  }
}
