/** The persistence gateway (services/storageService.ts): one durable slot holding the whole
    state, a seed dataset used when the slot holds nothing, and an overwrite-everything save. */
module StorageService {
  import opened Wrappers
  import opened Seqs
  import opened Types
  import opened Integrity

  /** The name of the single slot. */
  const STORAGE_KEY: string := "edutrack_data_v1"

  /** The sample data the application starts from when nothing was saved. */
  const SEED: AppState := AppState(
    [ Student("s1", "1001", "Budi Santoso", "10A", None),
      Student("s2", "1002", "Siti Aminah", "10A", None),
      Student("s3", "1003", "Rizky Pratama", "10B", None) ],
    [ Assessment("a1", "UH Matematika Bab 1", "Matematika", "2023-10-01", 100, Some("Aljabar Dasar")),
      Assessment("a2", "Kuis Biologi Sel", "Biologi", "2023-10-05", 100, None) ],
    [ Grade("g1", "s1", "a1", 85, Some("Bagus, pertahankan.")),
      Grade("g2", "s2", "a1", 92, Some("Sangat memuaskan!")) ])

  /** What the slot can hold: the empty string (falsy, so ignored by a load) or the serialized
      form of a state. */
  datatype Entry = Blank | Serialized(state: AppState)

  /** The state a load yields from the slot's content: the stored state when there is one,
      the seed when the slot is missing or blank. */
  function Load(slot: Option<Entry>): (r: AppState)
    ensures slot.Some? && slot.value.Serialized? ==> r == slot.value.state
    ensures slot.None? || slot == Some(Blank) ==> r == SEED
  {
    match slot
    case Some(Serialized(state)) => state
    case _ => SEED
  }

  /** The slot's content after saving `data`. */
  function Saved(data: AppState): Option<Entry> {
    Some(Serialized(data))
  }

  /** Saving then loading gives back the saved state, whatever the slot held before. */
  lemma LoadAfterSave(data: AppState)
    ensures Load(Saved(data)) == data
  {
  }

  /** The slot itself, read and overwritten in place. */
  class Storage {
    var slot: Option<Entry>

    constructor (initial: Option<Entry>)
      ensures slot == initial
    {
      slot := initial;
    }

    /** `loadData`: the stored state, or the seed when the slot holds nothing usable. */
    method LoadData() returns (r: AppState)
      ensures slot.Some? && slot.value.Serialized? ==> r == slot.value.state
      ensures slot.None? || slot == Some(Blank) ==> r == SEED
    {
      match slot
      case Some(Serialized(state)) => r := state;
      case _ => r := SEED;
    }

    /** `saveData`: overwrites the whole slot with `data`. */
    method SaveData(data: AppState)
      modifies this
      ensures slot == Saved(data)
      ensures Load(slot) == data
    {
      slot := Saved(data);
    }
  }

  /** Ids are unique in each seed collection, every seed grade refers to a seed student and a
      seed assessment, and no pair of ids is graded twice. */
  lemma SeedWellFormed()
    ensures WellFormed(SEED)
  {
    assert SEED.students[0] in SEED.students && SEED.students[1] in SEED.students;
    assert SEED.assessments[0] in SEED.assessments;
    assert "s1" in Keys(SEED.students, IdOfStudent) && "s2" in Keys(SEED.students, IdOfStudent);
    assert "a1" in Keys(SEED.assessments, IdOfAssessment);
  }

  /** The seed has students, so saving it passes the save guard, and each seed score lies between
      0 and the maximum of the assessment it refers to. */
  lemma SeedScoresInRange()
    ensures |SEED.students| > 0
    ensures forall g :: g in SEED.grades ==>
              exists a :: a in SEED.assessments && a.id == g.assessmentId && 0 <= g.score <= a.maxScore
  {
  }
}
