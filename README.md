# Kunena version status, modelled in Dafny

This project models `KunenaAdminVersion`, the version helper of the Kunena
forum's administrator component
(`src/administrator/components/com_kunena/install/version.php`). It covers:

- **the unstable-release warning** (`getVersionWarning`). It tests the running
  version for the markers `GIT`, `DEV`, `RC`, `BETA`, `ALPHA`, in that order.
  The first marker found picks a label and a warning sentence. The result is
  the formatted warning, or `""`.
- **the installed-version record** (`getDBVersion`). The record is the latest
  row of the `version` table. When no usable row exists it is a default
  object `{state: ''}`. A non-empty `state` written by another version is
  cleared.
- **the "needs a version check" decision** (`checkVersion`). It answers true
  when the record has a version but no confirming state.
- **the three display strings** (`getVersionHTML`, `getCopyrightHTML`,
  `getLongVersionHTML`).

Files:

- `wrappers.dfy`: `Option`, which stands for PHP's `null`, `false` and unset.
- `php_string.dfy`: the PHP primitives used. `strpos` is `StrPos`, proved to
  find the first occurrence. `strtoupper` is `ToUpper`. String truthiness is
  `Falsy`.
- `admin_version.dfy`: the class itself.

Inputs that are globals or services in the source are parameters here:

- `Release(version, date, name)` stands for `KunenaForum::version()`,
  `versionDate()` and `versionName()`.
- `Language(text, format)` stands for `Text::_` and `Text::sprintf`. Both are
  arbitrary functions, so every result holds for any translation table.
- `Database(prefix, tables)` stands for the database. It holds the site's
  table prefix and each table's rows.

`getDBVersion` is modelled as pure functions, `Fetch` followed by `Normalise`.
The source overwrites `$version->state` in place. Here that is a datatype
update of the record. This is faithful because the object is fresh from
`loadObject()` or `new stdClass` on every call and escapes only as the
return value.

`loadObject()` returns every column of the row, so `Record.others` carries
the columns other than `id`, `version` and `state` unchanged.

## Model

| member | source | states |
|---|---|---|
| `PhpString.StrPosFrom` | src/administrator/components/com_kunena/install/version.php:33 | `strpos` with offset: the returned index is an occurrence at or after the offset with none before it; `None` only when the needle occurs nowhere from the offset on |
| `PhpString.StrPos` | src/administrator/components/com_kunena/install/version.php:33 | `strpos`: the first occurrence, case-sensitive; `None` exactly when the needle occurs nowhere |
| `PhpString.ContainsFirstChar` | src/administrator/components/com_kunena/install/version.php:33 | a string passing the `strpos(...) !== false` test holds the needle's first character |
| `PhpString.ToUpper` | src/administrator/components/com_kunena/install/version.php:144 | `strtoupper`: same length, each character upper-cased, no lower-case ASCII letter left |
| `PhpString.ContainsIffOccurs` | src/administrator/components/com_kunena/install/version.php:33 | `strpos(...) !== false` holds exactly when the needle occurs at some index of the haystack |
| `PhpString.Falsy` | src/administrator/components/com_kunena/install/version.php:71 | `empty()` on a string: every string of two or more characters (such as "00") is non-empty, and the only empty one-character string is "0" |
| `AdminVersion.Classify` | src/administrator/components/com_kunena/install/version.php:33-69 | the selected type's marker occurs in the version; any marker that occurs gives a selection of equal or earlier rank, so no earlier marker occurs and no selection means no marker |
| `AdminVersion.VersionWarning` | src/administrator/components/com_kunena/install/version.php:31-77 | `""` when no marker occurs; non-empty exactly when a marker occurs and both its translations are non-empty; then `sprintf(msg, '<strong>' + upper(version), label + '</strong>') + ' ' + warning` |
| `AdminVersion.NoMarkerNoWarning` | src/administrator/components/com_kunena/install/version.php:33-76 | a version containing none of the five markers has an empty warning, whatever the translations |
| `AdminVersion.NoUpperCaseNoWarning` | src/administrator/components/com_kunena/install/version.php:33-76 | a version with no upper-case ASCII letter never has a warning, because the test is case-sensitive |
| `AdminVersion.FirstMarkerSelectsKeys` | src/administrator/components/com_kunena/install/version.php:33-73 | the earliest marker present selects both the label key and the warning key of the result |
| `AdminVersion.RcBeforeBeta` | src/administrator/components/com_kunena/install/version.php:47-57 | "2.0.0RCBETA" is classified RC, not BETA |
| `AdminVersion.LowerCaseRcIsStable` | src/administrator/components/com_kunena/install/version.php:47 | "6.0.0-rc1" gets no warning: lower-case `rc` is not the marker |
| `AdminVersion.Truthy` | src/administrator/components/com_kunena/install/version.php:92-94 | a truthy value is set and non-empty; every set value of two or more characters is truthy |
| `AdminVersion.Load` | src/administrator/components/com_kunena/install/version.php:117 | the loaded object carries the row's id, version, state and other columns, and is never the default object |
| `AdminVersion.TableName` | src/administrator/components/com_kunena/install/version.php:111 | the table name is the database prefix, then the component prefix, then "version" |
| `AdminVersion.LatestRow` | src/administrator/components/com_kunena/install/version.php:116-117 | `ORDER BY id DESC` limit 1: a row of the table whose id is at least every other id; `None` exactly for an empty table |
| `AdminVersion.Fetch` | src/administrator/components/com_kunena/install/version.php:110-118 | nothing is loaded exactly when the table is missing or empty; otherwise the row with the largest id is loaded |
| `AdminVersion.Normalise` | src/administrator/components/com_kunena/install/version.php:120-133 | `state` is always set; a truthy state implies the record's version is the running one; the default when nothing or no `state` was loaded; otherwise id, version and other columns unchanged, and `state` changes, to `""`, exactly when it is non-empty and the version differs |
| `AdminVersion.NormaliseIdempotent` | src/administrator/components/com_kunena/install/version.php:120-133 | normalising a normalised record changes nothing |
| `AdminVersion.DbVersion` | src/administrator/components/com_kunena/install/version.php:108-134 | the returned record always has `state`, and a truthy `state` certifies that the record's version is the running version |
| `AdminVersion.DefaultRecordCases` | src/administrator/components/com_kunena/install/version.php:114-124 | the default record is returned exactly when the table does not exist, has no row, or its latest row lacks `state` |
| `AdminVersion.ExaminesLatestRow` | src/administrator/components/com_kunena/install/version.php:116-133 | any other record equals a row with the largest id in every field except possibly `state` |
| `AdminVersion.CheckVersion` | src/administrator/components/com_kunena/install/version.php:83-98 | true exactly when the record has a version and a falsy state; equivalently, when the table's latest row has a version, has a state, and that state is empty or was written by another version |
| `AdminVersion.CheckVersionCases` | src/administrator/components/com_kunena/install/version.php:83-98 | the default record gives false, a confirmed current record gives false, a stale record (state cleared) gives true |
| `AdminVersion.StaleRowExample` | src/administrator/components/com_kunena/install/version.php:125-130 | a row of 5.0.0 with state "done", read under 5.1.0, comes back with state "" and the version kept, and checkVersion is true |
| `AdminVersion.MissingTableExample` | src/administrator/components/com_kunena/install/version.php:114-124 | with no version table the default record comes back and checkVersion is false |
| `AdminVersion.VersionHtml` | src/administrator/components/com_kunena/install/version.php:142-145 | the string is "Kunena " followed by the upper-cased version, a bar separator, the date, " [ ", the name and " ]", each at its fixed position, so the string is exactly that concatenation |
| `AdminVersion.CopyrightHtml` | src/administrator/components/com_kunena/install/version.php:153-159 | the string opens with ": &copy; 2008 - 2020 " and the copyright translation, ends with the GPL translation and "</a>", and its length is the four translations plus the fixed markup |
| `AdminVersion.CopyrightHtmlShowsLookups` | src/administrator/components/com_kunena/install/version.php:153-159 | the copyright, team, license and GPL translations all appear in the copyright string |
| `AdminVersion.LongVersionHtml` | src/administrator/components/com_kunena/install/version.php:168-171 | the long string is the version string, then a bar separator with a space on each side, then the copyright string, and nothing else |

## Left out

- `src/plugins/plg_kunena_comprofiler/avatar.php`: every branch calls the Community Builder extension, which is not part of this model. Its only own logic is the `sizex <= 144` threshold.
- `KunenaVersionException`: it is declared but never raised or caught.
- Database plumbing: `Factory::getDBO`, quoting, and `setQuery`/`loadResult`/`loadObject` are not modelled. The database is an input. Also not modelled: the `_` wildcard of `SHOW TABLES LIKE`, query errors, and a table name that PHP would read as falsy.
- Localisation: `Text::_` and `Text::sprintf` are uninterpreted functions. Translation tables and printf parsing are not modelled.
- PHP loose comparison: the version test at line 127 is plain string inequality. PHP's `!=` treats numeric strings such as "5.0" and "5.00" as equal. The model treats a missing or NULL version as different from the running version. PHP does too, except when the running version is `""`, because `null != ""` is false.
- String truthiness: `empty()` and `if ($state)` are modelled on strings as "`\"\"` or `\"0\"`".
- `strtoupper` is ASCII-only, which is what PHP 8.2 and later do; locale-dependent upper-casing is not modelled.
- PHP strings are byte strings, while Dafny's `string` is a sequence of characters. The marker tests and the upper-casing work on ASCII only, so no result changes. The lengths stated by `VersionHtml`, `CopyrightHtml`, `TableName` and `LongVersionHtml` count characters, not bytes.
- AdminVersion.LatestRow: when several rows share the largest id, SQL does not say which one is returned; the contract says only that the id is maximal.
- AdminVersion.CopyrightHtmlShowsLookups: the fixed HTML and copyright text are written out in `CopyrightHtml`; only the opening and closing markup, the total length and the presence of the four translations are proved. The markup between the translations and the order of the middle two are not proved.
