/** The records the store keeps. An optional TypeScript field (`field?: T`) is an Option. */
module Types {
  import opened Wrappers
  import opened Tables

  /** Milliseconds since the epoch, as `Date.now()` returns them. */
  type Timestamp = int

  datatype Intervention = Intervention(
    id: Id,
    date: string,
    startTime: string,
    endTime: string,
    technicianIds: seq<Id>,
    taskText: string,
    equipment: Option<string>,
    notes: Option<string>,
    address: Option<string>,
    tenantName: Option<string>,
    phone: Option<string>,
    pdfUrl: Option<string>,
    pdfName: Option<string>,
    createdAt: Timestamp,
    updatedAt: Timestamp)

  /** The argument of `createIntervention`: an intervention without id and timestamps. */
  datatype InterventionData = InterventionData(
    date: string,
    startTime: string,
    endTime: string,
    technicianIds: seq<Id>,
    taskText: string,
    equipment: Option<string>,
    notes: Option<string>,
    address: Option<string>,
    tenantName: Option<string>,
    phone: Option<string>,
    pdfUrl: Option<string>,
    pdfName: Option<string>)

  /** The argument of `updateIntervention`: `Partial<Intervention>`. None is a key the
    * object does not carry; for an optional field, `Some(None)` is a key carried with
    * the value `undefined`, which the spread copies and so clears the field. */
  datatype InterventionPatch = InterventionPatch(
    date: Option<string>,
    startTime: Option<string>,
    endTime: Option<string>,
    technicianIds: Option<seq<Id>>,
    taskText: Option<string>,
    equipment: Option<Option<string>>,
    notes: Option<Option<string>>,
    address: Option<Option<string>>,
    tenantName: Option<Option<string>>,
    phone: Option<Option<string>>,
    pdfUrl: Option<Option<string>>,
    pdfName: Option<Option<string>>)

  datatype Technician = Technician(
    id: Id,
    name: string,
    color: string,
    isActive: bool,
    usageCount: nat,
    createdAt: Timestamp,
    updatedAt: Timestamp)

  /** `TaskKeyword` and `EquipmentKeyword`, which have the same shape. */
  datatype Keyword = Keyword(
    id: Id,
    text: string,
    shortcut: Option<string>,
    usageCount: nat,
    isDefault: Option<bool>)

  /** The maximum number of technicians on one intervention. */
  const MaxTechnicians: nat := 4
}
