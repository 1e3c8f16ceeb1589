/**
 * The debug screen's backup (DebugActivity.kt). Export writes one object whose two
 * members hold the full "reports" and "user_credentials" files. Import parses a backup
 * as a map of maps, then for each of the two files in turn: clears the file, writes
 * every entry of the matching section with its value's `toString()`, and applies.
 *
 * The JSON text is not modelled: a backup is given as what Gson's `fromJson` made of it.
 */
module Backup {
  import opened Wrappers
  import opened Storage

  /** A section's value as Gson parsed it. */
  datatype Entry =
    | NullEntry                 // JSON null: `value.toString()` throws
    | BoolEntry(b: bool)
    | NumberEntry(text: string) // a Double; `text` is what its `toString()` gives
    | StringEntry(s: string)
    | NestedEntry(text: string) // an object or array; `text` is what its `toString()` gives

  /** A top-level member as Gson parsed it. */
  datatype Section =
    | NullSection                              // JSON null: read as the empty map
    | ObjectSection(entries: map<string, Entry>)
    | OtherSection                             // not an object: the cast to a map throws

  /** The whole backup: a top-level object, or anything the cast to a map rejects. */
  datatype Document =
    | NotAMap                                  // syntax error, null, or not an object
    | Root(sections: map<string, Section>)

  const ReportsSection: string := "reports"
  const CredentialsSection: string := "user_credentials"

  /** `value.toString()` for a value that is not null. */
  function Text(e: Entry): string
    requires !e.NullEntry?
  {
    match e
    case BoolEntry(b) => if b then "true" else "false"
    case NumberEntry(text) => text
    case StringEntry(s) => s
    case NestedEntry(text) => text
  }

  /** `data[name] ?: emptyMap()` used as a map: None when the cast fails. */
  function SectionEntries(sections: map<string, Section>, name: string): (r: Option<map<string, Entry>>)
    ensures r.None? <==> name in sections && sections[name].OtherSection?
    ensures name !in sections || sections[name].NullSection? ==> r == Some(map[])
    ensures name in sections && sections[name].ObjectSection? ==> r == Some(sections[name].entries)
  {
    if name !in sections then Some(map[])
    else
      match sections[name]
      case NullSection => Some(map[])
      case ObjectSection(entries) => Some(entries)
      case OtherSection => None
  }

  /**
   * What the `putString` loop leaves in a cleared file: every entry as text, or None
   * when a null value throws, since then the editor holding the puts is never applied.
   */
  function Rendered(entries: map<string, Entry>): (r: Option<map<string, string>>)
    ensures r.None? <==> exists k :: k in entries && entries[k].NullEntry?
    ensures r.Some? ==> r.value.Keys == entries.Keys
    ensures r.Some? ==> forall k :: k in entries ==> r.value[k] == Text(entries[k])
  {
    if exists k :: k in entries && entries[k].NullEntry? then None
    else Some(map k | k in entries :: Text(entries[k]))
  }

  /** One file after its section is imported: cleared, then filled, or None on a throw. */
  function SectionImport(sections: map<string, Section>, name: string): Option<map<string, string>>
  {
    var entries :- SectionEntries(sections, name);
    Rendered(entries)
  }

  /** Whether the import finished, and the two files afterwards. */
  datatype ImportResult = ImportResult(ok: bool, reports: map<string, string>, credentials: map<string, string>)

  /**
   * The import, stage by stage: a document that is not a map fails before anything is
   * cleared; a failure in the "reports" stage leaves that file empty and the credential
   * file as it was; a failure in the "user_credentials" stage keeps the imported reports
   * and leaves the credential file empty.
   */
  function ImportInto(reports: map<string, string>, credentials: map<string, string>, doc: Document)
    : (r: ImportResult)
    ensures doc.NotAMap? ==> r == ImportResult(false, reports, credentials)
    ensures doc.Root? && SectionImport(doc.sections, ReportsSection).None? ==>
              r == ImportResult(false, map[], credentials)
    ensures doc.Root? && SectionImport(doc.sections, ReportsSection).Some? &&
            SectionImport(doc.sections, CredentialsSection).None? ==>
              r == ImportResult(false, SectionImport(doc.sections, ReportsSection).value, map[])
    ensures r.ok <==> doc.Root? && SectionImport(doc.sections, ReportsSection).Some? &&
                      SectionImport(doc.sections, CredentialsSection).Some?
    ensures r.ok ==> r.reports == SectionImport(doc.sections, ReportsSection).value &&
                     r.credentials == SectionImport(doc.sections, CredentialsSection).value
  {
    match doc
    case NotAMap => ImportResult(false, reports, credentials)
    case Root(sections) =>
      match SectionImport(sections, ReportsSection)
      case None => ImportResult(false, map[], credentials)
      case Some(r) =>
        match SectionImport(sections, CredentialsSection)
        case None => ImportResult(false, r, map[])
        case Some(c) => ImportResult(true, r, c)
  }

  /**
   * The loop `for ((key, value) in section) putString(key, value.toString())` into a
   * fresh editor: the entries written, or None when a null value throws.
   */
  method PutAll(entries: map<string, Entry>) returns (written: Option<map<string, string>>)
    ensures written == Rendered(entries)
  {
    var pending: map<string, string> := map[];
    var remaining := entries.Keys;
    while remaining != {}
      invariant remaining <= entries.Keys
      invariant pending.Keys == entries.Keys - remaining
      invariant forall k :: k in pending ==> !entries[k].NullEntry? && pending[k] == Text(entries[k])
      decreases |remaining|
    {
      var key :| key in remaining;
      var value := entries[key];
      if value.NullEntry? {
        assert key in entries && entries[key].NullEntry?;
        return None;
      }
      pending := pending[key := Text(value)];
      remaining := remaining - {key};
    }
    assert pending == map k | k in entries :: Text(entries[k]);
    written := Some(pending);
  }

  /** `onActivityResult` for an import: the two stages in order, each applied as it ends. */
  method Import(prefs: Preferences, doc: Document) returns (ok: bool)
    modifies prefs
    ensures var r := ImportInto(old(prefs.reports), old(prefs.credentials), doc);
      ok == r.ok && prefs.reports == r.reports && prefs.credentials == r.credentials
    ensures prefs.theme == old(prefs.theme)
  {
    if doc.NotAMap? {
      return false;
    }
    prefs.reports := map[];
    var reportEntries := SectionEntries(doc.sections, ReportsSection);
    if reportEntries.None? {
      return false;
    }
    var reports := PutAll(reportEntries.value);
    if reports.None? {
      return false;
    }
    prefs.reports := reports.value;

    prefs.credentials := map[];
    var credentialEntries := SectionEntries(doc.sections, CredentialsSection);
    if credentialEntries.None? {
      return false;
    }
    var credentials := PutAll(credentialEntries.value);
    if credentials.None? {
      return false;
    }
    prefs.credentials := credentials.value;
    ok := true;
  }

  /** A file's entries as the strings Gson writes for them. */
  function StringEntries(file: map<string, string>): (entries: map<string, Entry>)
    ensures entries.Keys == file.Keys
    ensures forall k :: k in file ==> entries[k] == StringEntry(file[k])
  {
    map k | k in file :: StringEntry(file[k])
  }

  /**
   * The exported object, as read back: exactly the members "reports" and
   * "user_credentials", each holding every entry of that file as a string.
   */
  function Export(reports: map<string, string>, credentials: map<string, string>): (doc: Document)
    ensures doc.Root? && doc.sections.Keys == {ReportsSection, CredentialsSection}
    ensures doc.sections[ReportsSection] == ObjectSection(StringEntries(reports))
    ensures doc.sections[CredentialsSection] == ObjectSection(StringEntries(credentials))
  {
    Root(map[ReportsSection := ObjectSection(StringEntries(reports)),
             CredentialsSection := ObjectSection(StringEntries(credentials))])
  }

  /** Text entries are written back as they were. */
  lemma RenderedStrings(file: map<string, string>)
    ensures Rendered(StringEntries(file)) == Some(file)
  {
    var entries := StringEntries(file);
    assert forall k :: k in entries ==> !entries[k].NullEntry?;
    var r := Rendered(entries);
    assert r.value == file by {
      assert r.value.Keys == file.Keys;
      forall k | k in file
        ensures r.value[k] == file[k]
      {
        assert entries[k] == StringEntry(file[k]);
      }
    }
  }

  /**
   * Importing an export restores both files exactly, whatever they held in between,
   * because both files hold only string values.
   */
  lemma ImportOfExportRestores(reports: map<string, string>, credentials: map<string, string>,
                               reports': map<string, string>, credentials': map<string, string>)
    ensures ImportInto(reports', credentials', Export(reports, credentials)) ==
            ImportResult(true, reports, credentials)
  {
    var sections := Export(reports, credentials).sections;
    RenderedStrings(reports);
    RenderedStrings(credentials);
    assert SectionImport(sections, ReportsSection) == Some(reports);
    assert SectionImport(sections, CredentialsSection) == Some(credentials);
  }

  /** A missing "reports" member empties the report file, whatever else happens. */
  lemma MissingReportsEmptiesReports(reports: map<string, string>, credentials: map<string, string>,
                                     sections: map<string, Section>)
    requires ReportsSection !in sections
    ensures ImportInto(reports, credentials, Root(sections)).reports == map[]
  {
    assert SectionImport(sections, ReportsSection) == Some(map[]);
  }

  /**
   * A missing "user_credentials" member empties the credential file once the reports
   * stage got through: everyone is logged out and no account is left.
   */
  lemma MissingCredentialsEmptiesCredentials(reports: map<string, string>, credentials: map<string, string>,
                                             sections: map<string, Section>)
    requires CredentialsSection !in sections && SectionImport(sections, ReportsSection).Some?
    ensures ImportInto(reports, credentials, Root(sections)).credentials == map[]
    ensures ImportInto(reports, credentials, Root(sections)).ok
  {
    assert SectionImport(sections, CredentialsSection) == Some(map[]);
  }

  /** The stage for member `name` throws: the member is not a map, or the value at `key` is null. */
  predicate StageThrows(sections: map<string, Section>, name: string, key: string)
  {
    name in sections &&
    (sections[name].OtherSection? ||
     (sections[name].ObjectSection? && key in sections[name].entries &&
      sections[name].entries[key].NullEntry?))
  }

  /**
   * Clearing comes before reading: whenever the "reports" stage throws, every stored
   * report is lost even though the import fails, and the credential file is untouched.
   */
  lemma NullReportEntryLosesReports(reports: map<string, string>, credentials: map<string, string>,
                                    sections: map<string, Section>, key: string)
    requires StageThrows(sections, ReportsSection, key)
    ensures ImportInto(reports, credentials, Root(sections)) == ImportResult(false, map[], credentials)
  {
    if sections[ReportsSection].ObjectSection? {
      assert Rendered(sections[ReportsSection].entries).None?;
    }
  }

  /**
   * Whenever the "reports" stage succeeds and the "user_credentials" stage throws, the
   * imported reports stay and no account is left.
   */
  lemma CredentialStageFailure(reports: map<string, string>, credentials: map<string, string>,
                               sections: map<string, Section>, key: string)
    requires SectionImport(sections, ReportsSection).Some?
    requires StageThrows(sections, CredentialsSection, key)
    ensures ImportInto(reports, credentials, Root(sections)) ==
            ImportResult(false, SectionImport(sections, ReportsSection).value, map[])
  {
    if sections[CredentialsSection].ObjectSection? {
      assert Rendered(sections[CredentialsSection].entries).None?;
    }
  }
}
