/**
 * The version-status helper of the Kunena administrator component
 * (class KunenaAdminVersion): the unstable-release warning, the installed
 * version record read from the `version` table, the "needs a version check"
 * decision and the three display strings.
 *
 * The process-wide globals KunenaForum::version(), versionDate() and
 * versionName() are the `Release` parameter; the localisation service
 * (Text::_ and Text::sprintf) is the `Language` parameter, whose two
 * functions are left uninterpreted; the database is the `Database` parameter.
 */
module AdminVersion {
  import opened Wrappers
  import opened PhpString

  /** The running release. */
  datatype Release = Release(version: string, date: string, name: string)

  /**
   * The localisation service: `text(key)` is Text::_(key) and
   * `format(key, a, b)` is Text::sprintf(key, a, b).
   */
  datatype Language = Language(text: string -> string, format: (string, string, string) -> string)

  // ---------------------------------------------------------------------
  // The unstable-release warning
  // ---------------------------------------------------------------------

  /** The release types that carry a warning, in the order they are tested. */
  datatype Stability = Git | Dev | Rc | Beta | Alpha

  /** The default message key of getVersionWarning. */
  const DefaultWarningMessage := "COM_KUNENA_VERSION_WARNING"

  /** The case-sensitive substring of the version that marks each type. */
  function Marker(k: Stability): string
  {
    match k
    case Git => "GIT"
    case Dev => "DEV"
    case Rc => "RC"
    case Beta => "BETA"
    case Alpha => "ALPHA"
  }

  /** Position of each type in the testing order GIT, DEV, RC, BETA, ALPHA. */
  function Rank(k: Stability): nat
  {
    match k
    case Git => 0
    case Dev => 1
    case Rc => 2
    case Beta => 3
    case Alpha => 4
  }

  /** Localisation key of the type's label. */
  function TypeKey(k: Stability): string
  {
    match k
    case Git => "COM_KUNENA_VERSION_GIT"
    case Dev => "COM_KUNENA_VERSION_DEV"
    case Rc => "COM_KUNENA_VERSION_RC"
    case Beta => "COM_KUNENA_VERSION_BETA"
    case Alpha => "COM_KUNENA_VERSION_ALPHA"
  }

  /** Localisation key of the type's warning sentence. */
  function WarningKey(k: Stability): string
  {
    match k
    case Git => "COM_KUNENA_VERSION_GIT_WARNING"
    case Dev => "COM_KUNENA_VERSION_DEV_WARNING"
    case Rc => "COM_KUNENA_VERSION_RC_WARNING"
    case Beta => "COM_KUNENA_VERSION_BETA_WARNING"
    case Alpha => "COM_KUNENA_VERSION_ALPHA_WARNING"
  }

  /**
   * The nested tests of getVersionWarning: the first marker, in testing
   * order, that occurs in the version; `None` when no marker occurs.
   */
  function Classify(version: string): (r: Option<Stability>)
    ensures r.Some? ==> Contains(version, Marker(r.value))
    ensures forall k :: Contains(version, Marker(k)) ==> r.Some? && Rank(r.value) <= Rank(k)
  {
    if Contains(version, Marker(Git)) then Some(Git)
    else if Contains(version, Marker(Dev)) then Some(Dev)
    else if Contains(version, Marker(Rc)) then Some(Rc)
    else if Contains(version, Marker(Beta)) then Some(Beta)
    else if Contains(version, Marker(Alpha)) then Some(Alpha)
    else None
  }

  /** The two translated strings are both non-empty for type `k`. */
  predicate Translated(lang: Language, k: Stability)
  {
    !Falsy(lang.text(TypeKey(k))) && !Falsy(lang.text(WarningKey(k)))
  }

  /**
   * getVersionWarning($msg): a warning for unstable releases, or "" for a
   * stable one or when a translation is missing.
   */
  function VersionWarning(rel: Release, lang: Language, msg: string): (r: string)
    ensures Classify(rel.version).None? ==> r == ""
    ensures r != "" <==> Classify(rel.version).Some? && Translated(lang, Classify(rel.version).value)
    ensures r != "" ==>
      var k := Classify(rel.version).value;
      r == lang.format(msg, "<strong>" + ToUpper(rel.version), lang.text(TypeKey(k)) + "</strong>")
           + " " + lang.text(WarningKey(k))
  {
    match Classify(rel.version)
    case None => ""
    case Some(k) =>
      var typeLabel := lang.text(TypeKey(k));
      var warning := lang.text(WarningKey(k));
      if !Falsy(warning) && !Falsy(typeLabel) then
        lang.format(msg, "<strong>" + ToUpper(rel.version), typeLabel + "</strong>") + " " + warning
      else
        ""
  }

  /** With no marker in the version, the warning is empty whatever the translations. */
  lemma NoMarkerNoWarning(rel: Release, lang: Language, msg: string)
    requires forall k :: !Contains(rel.version, Marker(k))
    ensures VersionWarning(rel, lang, msg) == ""
  {
  }

  /**
   * Every marker is upper case, so a version without upper-case ASCII
   * letters (such as "6.0.0-rc1") never gets a warning.
   */
  lemma NoUpperCaseNoWarning(rel: Release, lang: Language, msg: string)
    requires forall i :: 0 <= i < |rel.version| ==> !IsAsciiUpper(rel.version[i])
    ensures VersionWarning(rel, lang, msg) == ""
  {
    forall k: Stability
      ensures !Contains(rel.version, Marker(k))
    {
      if Contains(rel.version, Marker(k)) {
        ContainsFirstChar(rel.version, Marker(k));
      }
    }
  }

  /** The earliest marker in testing order selects both the label and the warning. */
  lemma FirstMarkerSelectsKeys(rel: Release, lang: Language, msg: string, k: Stability)
    requires Contains(rel.version, Marker(k))
    requires forall j :: Rank(j) < Rank(k) ==> !Contains(rel.version, Marker(j))
    requires Translated(lang, k)
    ensures VersionWarning(rel, lang, msg)
            == lang.format(msg, "<strong>" + ToUpper(rel.version), lang.text(TypeKey(k)) + "</strong>")
               + " " + lang.text(WarningKey(k))
  {
  }

  /** "2.0.0RCBETA" carries both the RC and the BETA marker; RC is tested first and wins. */
  lemma RcBeforeBeta()
    ensures Classify("2.0.0RCBETA") == Some(Rc)
  {
    var v := "2.0.0RCBETA";
    assert IsAt(v, "RC", 5);
    if Contains(v, "GIT") {
      ContainsFirstChar(v, "GIT");
    }
    if Contains(v, "DEV") {
      ContainsFirstChar(v, "DEV");
    }
  }

  /** A lower-case "rc" is not the RC marker: "6.0.0-rc1" counts as stable. */
  lemma LowerCaseRcIsStable(lang: Language)
    ensures VersionWarning(Release("6.0.0-rc1", "", ""), lang, DefaultWarningMessage) == ""
  {
    NoUpperCaseNoWarning(Release("6.0.0-rc1", "", ""), lang, DefaultWarningMessage);
  }

  // ---------------------------------------------------------------------
  // The installed-version record
  // ---------------------------------------------------------------------

  /**
   * A row of the `version` table. `version` and `state` are `None` when
   * the column is NULL or missing (PHP's isset() is false for both);
   * `others` holds the remaining non-NULL columns.
   */
  datatype Row = Row(id: int, version: Option<string>, state: Option<string>, others: map<string, string>)

  /** The object getDBVersion returns: a loaded row, or the default `{state: ''}`. */
  datatype Record = Record(id: Option<int>, version: Option<string>, state: Option<string>, others: map<string, string>)

  /** The database: its table prefix and its tables by name. */
  datatype Database = Database(prefix: string, tables: map<string, seq<Row>>)

  /** The default component table prefix of getDBVersion, the one checkVersion uses. */
  const DefaultPrefix := "kunena_"

  /** The object built when nothing usable was loaded: only `state`, set to "". */
  const Default := Record(None, None, Some(""), map[])

  /** A PHP value that converts to `true`: set and neither "" nor "0". */
  predicate Truthy(v: Option<string>)
    ensures Truthy(v) ==> v.Some? && v.value != ""
    ensures v.Some? && |v.value| >= 2 ==> Truthy(v)
  {
    v.Some? && !Falsy(v.value)
  }

  /** The object loadObject() builds from a row. */
  function Load(row: Row): (r: Record)
    ensures r.id == Some(row.id) && r != Default
    ensures r.version == row.version && r.state == row.state && r.others == row.others
  {
    Record(Some(row.id), row.version, row.state, row.others)
  }

  /**
   * The row `SELECT * ... ORDER BY id DESC` with limit 1 yields: one with
   * the largest id, `None` for an empty table.
   */
  function LatestRow(rows: seq<Row>): (r: Option<Row>)
    ensures r.None? <==> rows == []
    ensures r.Some? ==> r.value in rows
    ensures r.Some? ==> forall x :: x in rows ==> x.id <= r.value.id
  {
    if rows == [] then None
    else
      match LatestRow(rows[1..])
      case None => Some(rows[0])
      case Some(best) => if best.id <= rows[0].id then Some(rows[0]) else Some(best)
  }

  /** Name of the version table for the component table prefix `prefix`. */
  function TableName(db: Database, prefix: string): (r: string)
    ensures |r| == |db.prefix| + |prefix| + 7
    ensures r[..|db.prefix|] == db.prefix
    ensures r[|db.prefix|..|db.prefix| + |prefix|] == prefix
    ensures r[|r| - 7..] == "version"
  {
    db.prefix + prefix + "version"
  }

  /**
   * The database part of getDBVersion: the loaded object when the table
   * exists and has a row, `None` otherwise.
   */
  function Fetch(db: Database, prefix: string): (r: Option<Record>)
    ensures r.None? <==> TableName(db, prefix) !in db.tables || db.tables[TableName(db, prefix)] == []
    ensures r.Some? ==> r == Some(Load(LatestRow(db.tables[TableName(db, prefix)]).value))
  {
    var name := TableName(db, prefix);
    if name in db.tables then
      match LatestRow(db.tables[name])
      case None => None
      case Some(row) => Some(Load(row))
    else
      None
  }

  /**
   * The record part of getDBVersion: the default when nothing with a
   * `state` was loaded; otherwise the loaded object, with `state` cleared
   * when it is non-empty but was written by another version.
   * The version comparison is plain string inequality, not PHP's loose `!=`.
   */
  function Normalise(loaded: Option<Record>, running: string): (r: Record)
    ensures r.state.Some?
    ensures Truthy(r.state) ==> r.version == Some(running)
    ensures loaded.None? || loaded.value.state.None? ==> r == Default
    ensures loaded.Some? && loaded.value.state.Some? ==>
      r.id == loaded.value.id && r.version == loaded.value.version && r.others == loaded.value.others
    ensures loaded.Some? && loaded.value.state.Some? ==>
      (r.state != loaded.value.state <==> Truthy(loaded.value.state) && loaded.value.version != Some(running))
    ensures loaded.Some? && loaded.value.state != r.state ==> r.state == Some("")
  {
    if loaded.None? || loaded.value.state.None? then
      Default
    else if Truthy(loaded.value.state) && loaded.value.version != Some(running) then
      loaded.value.(state := Some(""))
    else
      loaded.value
  }

  /** A normalised record is its own normal form. */
  lemma NormaliseIdempotent(loaded: Option<Record>, running: string)
    ensures Normalise(Some(Normalise(loaded, running)), running) == Normalise(loaded, running)
  {
  }

  /** getDBVersion($prefix) for the running version `running`. */
  function DbVersion(db: Database, prefix: string, running: string): (r: Record)
    ensures r.state.Some?
    ensures Truthy(r.state) ==> r.version == Some(running)
  {
    Normalise(Fetch(db, prefix), running)
  }

  /**
   * The default record comes back exactly when the table is missing, is
   * empty, or its latest row has no `state`.
   */
  lemma DefaultRecordCases(db: Database, prefix: string, running: string)
    ensures var name := TableName(db, prefix);
      DbVersion(db, prefix, running) == Default <==>
        name !in db.tables || db.tables[name] == [] || LatestRow(db.tables[name]).value.state.None?
  {
    var name := TableName(db, prefix);
    if name in db.tables && db.tables[name] != [] {
      var row := LatestRow(db.tables[name]).value;
      if row.state.Some? {
        assert DbVersion(db, prefix, running).id == Some(row.id);
      }
    }
  }

  /**
   * Any record other than the default comes from a row of the table with
   * the largest id, and keeps every field of it except possibly `state`.
   */
  lemma ExaminesLatestRow(db: Database, prefix: string, running: string)
    requires DbVersion(db, prefix, running) != Default
    ensures var name := TableName(db, prefix);
      name in db.tables &&
      exists row :: row in db.tables[name] &&
        (forall x :: x in db.tables[name] ==> x.id <= row.id) &&
        DbVersion(db, prefix, running) == Load(row).(state := DbVersion(db, prefix, running).state)
  {
    var name := TableName(db, prefix);
    var row := LatestRow(db.tables[name]).value;
    assert DbVersion(db, prefix, running) == Load(row).(state := DbVersion(db, prefix, running).state);
  }

  /**
   * checkVersion(): true when the installed-version record has a version
   * but no confirming state, i.e. the latest row has a version and a
   * `state` that is empty or was written by another version.
   */
  function CheckVersion(db: Database, running: string): (b: bool)
    ensures b <==> DbVersion(db, DefaultPrefix, running).version.Some? && !Truthy(DbVersion(db, DefaultPrefix, running).state)
    ensures var name := TableName(db, DefaultPrefix);
      b <==> (name in db.tables && db.tables[name] != [] &&
              var row := LatestRow(db.tables[name]).value;
              row.state.Some? && row.version.Some? && (Falsy(row.state.value) || row.version != Some(running)))
  {
    var version := DbVersion(db, DefaultPrefix, running);
    if version.version.None? then false
    else if Truthy(version.state) then false
    else true
  }

  /**
   * The three cases checkVersion distinguishes: the default record gives
   * false, a record confirmed for the running version gives false, and a
   * record with a version but a cleared or empty state gives true.
   */
  lemma CheckVersionCases(db: Database, running: string)
    ensures DbVersion(db, DefaultPrefix, running) == Default ==> !CheckVersion(db, running)
    ensures Truthy(DbVersion(db, DefaultPrefix, running).state) ==> !CheckVersion(db, running)
    ensures var name := TableName(db, DefaultPrefix);
      (name in db.tables && db.tables[name] != [] &&
       var row := LatestRow(db.tables[name]).value;
       row.version.Some? && Truthy(row.state) && row.version != Some(running)) ==> CheckVersion(db, running)
  {
  }

  /**
   * A row written by 5.0.0 with state "done", read while 5.1.0 runs: the
   * state is cleared, the version kept, and checkVersion answers true.
   */
  lemma StaleRowExample()
    ensures var db := Database("jos_", map["jos_kunena_version" := [Row(1, Some("5.0.0"), Some("done"), map[])]]);
      DbVersion(db, DefaultPrefix, "5.1.0") == Record(Some(1), Some("5.0.0"), Some(""), map[]) &&
      CheckVersion(db, "5.1.0")
  {
    var db := Database("jos_", map["jos_kunena_version" := [Row(1, Some("5.0.0"), Some("done"), map[])]]);
    assert TableName(db, DefaultPrefix) == "jos_kunena_version";
  }

  /** With no version table the default record is returned and checkVersion answers false. */
  lemma MissingTableExample(running: string)
    ensures DbVersion(Database("jos_", map[]), DefaultPrefix, running) == Default
    ensures !CheckVersion(Database("jos_", map[]), running)
  {
  }

  // ---------------------------------------------------------------------
  // Display strings
  // ---------------------------------------------------------------------

  /** getVersionHTML(): "Kunena VERSION | date [ name ]". */
  function VersionHtml(rel: Release): (r: string)
    ensures |r| == 7 + |rel.version| + 3 + |rel.date| + 3 + |rel.name| + 2
    ensures r[..7] == "Kunena "
    ensures r[7..7 + |rel.version|] == ToUpper(rel.version)
    ensures r[7 + |rel.version|..10 + |rel.version|] == " | "
    ensures r[10 + |rel.version|..10 + |rel.version| + |rel.date|] == rel.date
    ensures r[10 + |rel.version| + |rel.date|..13 + |rel.version| + |rel.date|] == " [ "
    ensures r[|r| - |rel.name| - 2..|r| - 2] == rel.name
    ensures r[|r| - 2..] == " ]"
  {
    "Kunena " + ToUpper(rel.version) + " | " + rel.date + " [ " + rel.name + " ]"
  }

  /** The four lookups getCopyrightHTML places, in order, in its fixed markup. */
  const CopyrightKeys := ["COM_KUNENA_VERSION_COPYRIGHT", "COM_KUNENA_VERSION_TEAM",
                          "COM_KUNENA_VERSION_LICENSE", "COM_KUNENA_VERSION_GPL"]

  /** Length of the fixed markup of getCopyrightHTML after its opening text. */
  const CopyrightMarkupLength := |": <a href = \"https://www.kunena.org/team\" target = \"_blank\">"| + |"</a>  | "|
    + |": <a href = \"https://www.gnu.org/copyleft/gpl.html\" target = \"_blank\">"| + |"</a>"|

  /** getCopyrightHTML(): fixed markup around the four translations. */
  function CopyrightHtml(lang: Language): (r: string)
    ensures |r| == |": &copy; 2008 - 2020 "| + |lang.text(CopyrightKeys[0])| + |lang.text(CopyrightKeys[1])|
                   + |lang.text(CopyrightKeys[2])| + |lang.text(CopyrightKeys[3])| + CopyrightMarkupLength
    ensures r[..21] == ": &copy; 2008 - 2020 "
    ensures r[21..21 + |lang.text(CopyrightKeys[0])|] == lang.text(CopyrightKeys[0])
    ensures r[|r| - |lang.text(CopyrightKeys[3])| - 4..|r| - 4] == lang.text(CopyrightKeys[3])
    ensures r[|r| - 4..] == "</a>"
  {
    ": &copy; 2008 - 2020 " + lang.text(CopyrightKeys[0])
    + ": <a href = \"https://www.kunena.org/team\" target = \"_blank\">"
    + lang.text(CopyrightKeys[1]) + "</a>  | " + lang.text(CopyrightKeys[2])
    + ": <a href = \"https://www.gnu.org/copyleft/gpl.html\" target = \"_blank\">"
    + lang.text(CopyrightKeys[3]) + "</a>"
  }

  /** Each of the four translations appears in the copyright string. */
  lemma CopyrightHtmlShowsLookups(lang: Language)
    ensures forall i :: 0 <= i < |CopyrightKeys| ==> Contains(CopyrightHtml(lang), lang.text(CopyrightKeys[i]))
  {
    FourPlaced(": &copy; 2008 - 2020 ", lang.text(CopyrightKeys[0]),
               ": <a href = \"https://www.kunena.org/team\" target = \"_blank\">", lang.text(CopyrightKeys[1]),
               "</a>  | ", lang.text(CopyrightKeys[2]),
               ": <a href = \"https://www.gnu.org/copyleft/gpl.html\" target = \"_blank\">", lang.text(CopyrightKeys[3]),
               "</a>");
    forall i | 0 <= i < |CopyrightKeys|
      ensures Contains(CopyrightHtml(lang), lang.text(CopyrightKeys[i]))
    {
      assert i == 0 || i == 1 || i == 2 || i == 3;
    }
  }

  /** Four strings interleaved with fixed text all occur in the concatenation. */
  lemma FourPlaced(a: string, t0: string, b: string, t1: string, c: string, t2: string, d: string, t3: string, e: string)
    ensures var r := a + t0 + b + t1 + c + t2 + d + t3 + e;
      Contains(r, t0) && Contains(r, t1) && Contains(r, t2) && Contains(r, t3)
  {
    var r := a + t0 + b + t1 + c + t2 + d + t3 + e;
    assert r == a + t0 + (b + t1 + c + t2 + d + t3 + e);
    Placed(a, t0, b + t1 + c + t2 + d + t3 + e);
    assert r == (a + t0 + b) + t1 + (c + t2 + d + t3 + e);
    Placed(a + t0 + b, t1, c + t2 + d + t3 + e);
    assert r == (a + t0 + b + t1 + c) + t2 + (d + t3 + e);
    Placed(a + t0 + b + t1 + c, t2, d + t3 + e);
    Placed(a + t0 + b + t1 + c + t2 + d, t3, e);
  }

  /** getLongVersionHTML(): the version string, " | ", then the copyright string. */
  function LongVersionHtml(rel: Release, lang: Language): (r: string)
    ensures |r| == |VersionHtml(rel)| + 3 + |CopyrightHtml(lang)|
    ensures r[..|VersionHtml(rel)|] == VersionHtml(rel)
    ensures r[|VersionHtml(rel)|..|VersionHtml(rel)| + 3] == " | "
    ensures r[|VersionHtml(rel)| + 3..] == CopyrightHtml(lang)
  {
    VersionHtml(rel) + " | " + CopyrightHtml(lang)
  }
}
