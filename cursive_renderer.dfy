/**
 * The medical-records application of cursive_renderer.rs: a model holding a list of
 * patient records, a reducer that applies the actions sent by the user interface
 * to it, and the view's reconciliation of its list of rows with the records.
 */
module CursiveRenderer {

  datatype MedicalRecord = MedicalRecord(name: string, surname: string, age: nat, weight: real)

  /** The actions the interface sends. ChangeName carries a position and a new name. */
  datatype Action =
    | ChangeName(recordPosition: nat, name: string, surname: string)
    | CreateNew
    | DeleteRecord(recordId: nat)
    | Quit

  /** The record CreateNew appends. */
  function NewPatient(): MedicalRecord {
    MedicalRecord("Eucebio", "Valente", 72, 67.8)
  }

  /** The records Model::new starts with. */
  function InitialPatients(): seq<MedicalRecord> {
    [ MedicalRecord("Pedro", "Rodriguez", 25, 93.0),
      MedicalRecord("Homar", "Sanchez", 38, 84.2),
      MedicalRecord("Carlos", "Gutierrez", 31, 103.1) ]
  }

  class Model {
    var patients: seq<MedicalRecord>

    /** Model::new: exactly three records, in this order. */
    constructor ()
      ensures patients == InitialPatients()
      ensures |patients| == 3
    {
      patients := InitialPatients();
    }
  }

  /**
   * The outcome of handling one action: the new list of records and whether the
   * backend was asked to quit, or Panic when Vec::remove is given an index past the
   * end of the list.
   */
  datatype Outcome = Reduced(patients: seq<MedicalRecord>, quit: bool) | Panic

  /** ActionReducer::handle_event as a function of the records. */
  function Reduce(patients: seq<MedicalRecord>, event: Action): (r: Outcome)
    ensures r.Panic? <==> event.DeleteRecord? && event.recordId >= |patients|
    ensures r.Reduced? ==> (r.quit <==> event.Quit?)
  {
    match event
    case Quit => Reduced(patients, true)
    case ChangeName(_, _, _) => Reduced(patients, false)
    case CreateNew => Reduced(patients + [NewPatient()], false)
    case DeleteRecord(i) =>
      if i < |patients| then Reduced(patients[..i] + patients[i + 1..], false) else Panic
  }

  /**
   * ActionReducer::handle_event on the model: the list is changed in place as
   * Reduce says; a panic leaves it as it was.
   */
  method HandleEvent(model: Model, event: Action) returns (quit: bool, panicked: bool)
    modifies model
    ensures panicked <==> Reduce(old(model.patients), event).Panic?
    ensures !panicked ==> Reduce(old(model.patients), event) == Reduced(model.patients, quit)
    ensures panicked ==> model.patients == old(model.patients) && !quit
  {
    quit, panicked := false, false;
    match event
    case Quit =>
      quit := true;
    case ChangeName(_, _, _) =>
    case CreateNew =>
      model.patients := model.patients + [NewPatient()];
    case DeleteRecord(i) =>
      if i < |model.patients| {
        model.patients := model.patients[..i] + model.patients[i + 1..];
      } else {
        panicked := true;
      }
  }

  /** CreateNew appends the fixed record and leaves every existing record in place. */
  lemma CreateNewAppends(patients: seq<MedicalRecord>)
    ensures Reduce(patients, CreateNew).Reduced?
    ensures |Reduce(patients, CreateNew).patients| == |patients| + 1
    ensures Reduce(patients, CreateNew).patients[..|patients|] == patients
    ensures Reduce(patients, CreateNew).patients[|patients|] == NewPatient()
  {
  }

  /**
   * DeleteRecord(i) with i in range removes record i: earlier records stay where
   * they are, later ones move one place to the left, and the multiset of records
   * loses exactly that one record.
   */
  lemma DeleteRecordRemoves(patients: seq<MedicalRecord>, i: nat)
    requires i < |patients|
    ensures Reduce(patients, DeleteRecord(i)).Reduced?
    ensures |Reduce(patients, DeleteRecord(i)).patients| == |patients| - 1
    ensures forall j :: 0 <= j < i ==> Reduce(patients, DeleteRecord(i)).patients[j] == patients[j]
    ensures forall j :: i <= j < |patients| - 1 ==> Reduce(patients, DeleteRecord(i)).patients[j] == patients[j + 1]
    ensures multiset(Reduce(patients, DeleteRecord(i)).patients) + multiset{patients[i]} == multiset(patients)
  {
    assert patients == patients[..i] + [patients[i]] + patients[i + 1..];
  }

  /** Quit and ChangeName leave the records as they are; only Quit asks to quit. */
  lemma QuitAndChangeNameKeepRecords(patients: seq<MedicalRecord>, event: Action)
    requires event.Quit? || event.ChangeName?
    ensures Reduce(patients, event) == Reduced(patients, event.Quit?)
  {
  }

  /** Deleting the record CreateNew just appended gives the records back. */
  lemma CreateThenDeleteRestores(patients: seq<MedicalRecord>)
    ensures Reduce(Reduce(patients, CreateNew).patients, DeleteRecord(|patients|)) == Reduced(patients, false)
  {
    var grown := patients + [NewPatient()];
    assert grown[..|patients|] + grown[|patients| + 1..] == patients;
  }

  /**
   * A row of the records layout: as PatientView::create makes it, or bound to a
   * record and to the index its delete button sends.
   */
  datatype PatientRow = Blank | Bound(record: MedicalRecord, recordId: nat)

  /** The rows after an update: row i shows record i and deletes index i. */
  function BoundRows(patients: seq<MedicalRecord>): (rows: seq<PatientRow>)
    ensures |rows| == |patients|
    ensures forall i :: 0 <= i < |rows| ==> rows[i].Bound? && rows[i].record == patients[i]
    ensures forall i :: 0 <= i < |rows| ==> rows[i].recordId == i
  {
    seq(|patients|, i requires 0 <= i < |patients| => Bound(patients[i], i))
  }

  /** The layout the view keeps its rows in. */
  class RecordsLayout {
    var children: seq<PatientRow>

    constructor ()
      ensures children == []
    {
      children := [];
    }

    /**
     * The two while loops of View::update: rows are removed from the front while
     * there are too many, and blank rows appended while there are too few. The rows
     * that remain are the last ones.
     */
    method Reconcile(count: nat)
      modifies this
      ensures |children| == count
      ensures |old(children)| >= count ==> children == old(children)[|old(children)| - count..]
      ensures |old(children)| < count ==> children[..|old(children)|] == old(children)
      ensures forall i :: |old(children)| <= i < count ==> children[i] == Blank
    {
      DropFront(count);
      PadBlank(count);
    }

    /** The first loop: remove the first row while there are more than `count`. */
    method DropFront(count: nat)
      modifies this
      ensures |old(children)| >= count ==> children == old(children)[|old(children)| - count..]
      ensures |old(children)| < count ==> children == old(children)
    {
      ghost var start := children;
      while |children| > count
        invariant |children| <= |start|
        invariant children == start[|start| - |children|..]
        invariant |start| >= count ==> |children| >= count
        invariant |start| < count ==> children == start
        decreases |children|
      {
        children := children[1..];
      }
    }

    /** The second loop: append a blank row while there are fewer than `count`. */
    method PadBlank(count: nat)
      modifies this
      ensures |old(children)| >= count ==> children == old(children)
      ensures |old(children)| < count ==> |children| == count
      ensures |old(children)| < count ==> children[..|old(children)|] == old(children)
      ensures forall i :: |old(children)| <= i < |children| ==> children[i] == Blank
    {
      ghost var start := children;
      while |children| < count
        invariant |start| <= |children|
        invariant |start| >= count ==> children == start
        invariant |start| < count ==> |children| <= count
        invariant children[..|start|] == start
        invariant forall i :: |start| <= i < |children| ==> children[i] == Blank
        decreases count - |children|
      {
        children := children + [Blank];
      }
    }

    /**
     * View::update on the records layout: reconcile the row count, then bind row i
     * to record i for every record.
     */
    method Update(patients: seq<MedicalRecord>)
      modifies this
      ensures children == BoundRows(patients)
    {
      Reconcile(|patients|);
      for i := 0 to |patients|
        invariant |children| == |patients|
        invariant forall j :: 0 <= j < i ==> children[j] == Bound(patients[j], j)
      {
        children := children[i := Bound(patients[i], i)];
      }
    }
  }

  /**
   * After an update, pressing the delete button of any row sends an index the
   * reducer accepts, and it removes exactly the record that row shows.
   */
  lemma BoundDeleteIsValid(patients: seq<MedicalRecord>, row: nat)
    requires row < |BoundRows(patients)|
    ensures Reduce(patients, DeleteRecord(BoundRows(patients)[row].recordId)).Reduced?
    ensures multiset(Reduce(patients, DeleteRecord(BoundRows(patients)[row].recordId)).patients)
              + multiset{BoundRows(patients)[row].record} == multiset(patients)
  {
    DeleteRecordRemoves(patients, row);
  }
}
