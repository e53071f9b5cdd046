/**
 * The backup screen (components/SyncCenter.tsx): exporting the three
 * stores as one payload, copying it, and importing a pasted payload, which
 * replaces all three stores only once it has passed the structure check
 * and the user has confirmed.
 *
 * `JSON.stringify`/`JSON.parse` are not modelled: the export is the payload
 * value itself, and the import receives the text (for the blank test) and
 * what parsing it yields. The confirmation dialog's answer is a parameter.
 */
module SyncCenter {
  import opened Types
  import opened Strings
  import opened Students
  import opened GraduationSettingsStore
  import opened AppSettingsStore

  /** `backupData`: the three sections, exactly as the stores hold them. */
  function ExportPayload(students: seq<Student>, graduation: GraduationSettings, app: AppSettings): (d: BackupData)
    ensures d.students == students && d.graduationSettings == graduation && d.appSettings == app
  {
    BackupData(students, graduation, app)
  }

  /** The `students` field of a parsed payload: absent, falsy, a truthy non-array, or an array. */
  datatype StudentsField = NoStudents | FalsyStudents | NotAnArray | StudentArray(records: seq<Student>)

  /** A parsed section that is an object: absent, falsy, or present (truthy). */
  datatype Section<T> = Absent | Falsy | Present(value: T)

  /** The fields of a parsed payload that the import reads. */
  datatype RawBackup = RawBackup(
    students: StudentsField,
    graduationSettings: Section<GraduationSettings>,
    appSettings: Section<AppSettings>)

  /** How an import ends. */
  datatype ImportResult =
    | BlankInput          // nothing but whitespace was pasted
    | ParseError          // the text is not JSON
    | NullPayload         // the text is `null`: reading a field of it throws
    | InvalidPayload      // a section is missing or falsy, or `students` is not an array
    | Declined            // the user did not confirm
    | LoaderMissing       // `loadStudents` is not provided by the students context: calling it throws
    | Replaced(data: BackupData)

  /** The structure check: all three sections truthy and `students` an array. */
  predicate ValidBackup(raw: RawBackup) {
    raw.students.StudentArray? && raw.graduationSettings.Present? && raw.appSettings.Present?
  }

  /** `handleImport`'s decision, from the pasted text, what parsing it gave, and the answer to the dialog. */
  function ImportDecision(text: string, parsed: Parsed<RawBackup>, confirmed: bool): (r: ImportResult)
    ensures r == BlankInput <==> IsBlank(text)
    ensures r.Replaced? <==> !IsBlank(text) && parsed.JsonObject? && ValidBackup(parsed.fields) && confirmed
    ensures r.Replaced? ==> r.data == BackupData(parsed.fields.students.records,
                                                parsed.fields.graduationSettings.value,
                                                parsed.fields.appSettings.value)
  {
    if IsBlank(text) then BlankInput
    else
      match parsed
      case Unparsable => ParseError
      case JsonNull => NullPayload
      case JsonScalar(_) => InvalidPayload
      case JsonArray => InvalidPayload
      case JsonObject(raw) =>
        if !ValidBackup(raw) then InvalidPayload
        else if !confirmed then Declined
        else Replaced(BackupData(raw.students.records, raw.graduationSettings.value, raw.appSettings.value))
  }

  /**
   * `handleImport` as written: the students context provides no
   * `loadStudents`, so where the intended decision is a replacement, the
   * call at the first replacement step throws before anything is written and
   * the catch reports it. No import replaces anything.
   */
  function ImportDecisionAsWritten(text: string, parsed: Parsed<RawBackup>, confirmed: bool): (r: ImportResult)
    ensures !r.Replaced?
    ensures r == LoaderMissing <==> !IsBlank(text) && parsed.JsonObject? && ValidBackup(parsed.fields) && confirmed
    ensures r != LoaderMissing ==> r == ImportDecision(text, parsed, confirmed)
  {
    var intended := ImportDecision(text, parsed, confirmed);
    if intended.Replaced? then LoaderMissing else intended
  }

  /** Text made only of Unicode space separators and line separators counts as blank, as `trim` sees it. */
  lemma UnicodeSpacesAreBlank(parsed: Parsed<RawBackup>, confirmed: bool)
    ensures ImportDecision("\U{3000}\U{2003}\U{2028}\U{00A0}", parsed, confirmed) == BlankInput
  {
  }

  /** The export, as it reads back once parsed: every section present and `students` an array. */
  function Reparsed(d: BackupData): RawBackup {
    RawBackup(StudentArray(d.students), Present(d.graduationSettings), Present(d.appSettings))
  }

  /**
   * Importing an exported payload, confirmed, restores exactly the exported
   * data, even with no students (an empty array is truthy).
   */
  lemma ExportImportRoundTrip(d: BackupData, text: string)
    requires !IsBlank(text)
    ensures ImportDecision(text, JsonObject(Reparsed(d)), true) == Replaced(d)
  {
  }

  /** As written, importing an exported payload, confirmed, fails at the first load instead of restoring it. */
  lemma ExportImportFailsAsWritten(d: BackupData, text: string)
    requires !IsBlank(text)
    ensures ImportDecisionAsWritten(text, JsonObject(Reparsed(d)), true) == LoaderMissing
    ensures ImportDecision(text, JsonObject(Reparsed(d)), true) == Replaced(d)
  {
  }

  /** A declined import, like any rejected one, replaces nothing. */
  lemma OnlyConfirmedImportsReplace(text: string, parsed: Parsed<RawBackup>)
    ensures !ImportDecision(text, parsed, false).Replaced?
  {
  }

  /** The screen's own state: the last export generated, if any. */
  class SyncScreen {
    var exported: Option<BackupData>

    /** Nothing has been exported when the screen opens (`exportData` is ''). */
    constructor()
      ensures exported == None
    {
      exported := None;
    }

    /** `handleGenerateExportCode`. */
    method GenerateExportCode(students: StudentStore, graduation: GraduationStore, app: AppSettingsProvider)
      modifies this
      ensures exported == Some(ExportPayload(students.students, graduation.settings, app.settings))
    {
      exported := Some(ExportPayload(students.students, graduation.settings, app.settings));
    }

    /** `handleCopyToClipboard`: returns the payload written, and writes nothing before an export exists. */
    method CopyToClipboard() returns (written: Option<BackupData>)
      ensures exported == None ==> written == None
      ensures exported != None ==> written == exported
    {
      if exported == None {
        return None;
      }
      written := exported;
    }

    /**
     * `handleImport` as written: whatever the input, none of the three stores
     * changes, and a valid confirmed payload ends in the loader failure.
     */
    method ImportAsWritten(students: StudentStore, graduation: GraduationStore, app: AppSettingsProvider,
                           text: string, parsed: Parsed<RawBackup>, confirmed: bool) returns (r: ImportResult)
      ensures r == ImportDecisionAsWritten(text, parsed, confirmed)
      ensures unchanged(students, graduation, app)
    {
      r := ImportDecisionAsWritten(text, parsed, confirmed);
    }

    /**
     * `handleImport` with the loaders it evidently expects: all three stores
     * are replaced together, or none is touched.
     */
    method Import(students: StudentStore, graduation: GraduationStore, app: AppSettingsProvider,
                  text: string, parsed: Parsed<RawBackup>, confirmed: bool) returns (r: ImportResult)
      modifies students, graduation, app
      ensures r == ImportDecision(text, parsed, confirmed)
      ensures r.Replaced? ==>
                && students.students == r.data.students
                && graduation.settings == r.data.graduationSettings
                && app.settings == r.data.appSettings
      ensures !r.Replaced? ==> unchanged(students, graduation, app)
    {
      r := ImportDecision(text, parsed, confirmed);
      if r.Replaced? {
        students.LoadStudents(r.data.students);
        graduation.UpdateSettings(r.data.graduationSettings);
        app.LoadSettings(r.data.appSettings);
      }
    }
  }
}
